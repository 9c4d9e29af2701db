/**
 * The log tailer (internal/tailer/tailer.go): it follows one file by polling,
 * assembles complete lines from the bytes it reads, and reopens the file when
 * it is rotated or truncated.
 *
 * The file system is abstract: at each poll the path either names no file or
 * a file with an identity and a content. One pass of the read loop is the
 * method `Tick`; the lines it sends on the output channel are its result.
 */
module Tailer {
  import opened Wrappers

  type byte = b: int | 0 <= b < 256

  const NL: byte := 10
  const CR: byte := 13

  /** Durations are nanoseconds, as Go's `time.Duration`. */
  const Millisecond := 1_000_000
  const DefaultPollEvery := 300 * Millisecond
  const DefaultReadChunk := 64 * 1024

  datatype Options = Options(path: string, fromStart: bool, pollEvery: int, readChunk: int)

  /** What `New` stores: a non-positive poll interval or chunk size is replaced by its default. */
  function WithDefaults(o: Options): (r: Options)
    ensures r.path == o.path && r.fromStart == o.fromStart
    ensures r.pollEvery > 0 && r.readChunk > 0
    ensures o.pollEvery > 0 ==> r.pollEvery == o.pollEvery
    ensures o.pollEvery <= 0 ==> r.pollEvery == DefaultPollEvery
    ensures o.readChunk > 0 ==> r.readChunk == o.readChunk
    ensures o.readChunk <= 0 ==> r.readChunk == DefaultReadChunk
  {
    var poll := if o.pollEvery <= 0 then DefaultPollEvery else o.pollEvery;
    var chunk := if o.readChunk <= 0 then DefaultReadChunk else o.readChunk;
    o.(pollEvery := poll, readChunk := chunk)
  }

  /** The file the path names at one poll: its identity (what `os.SameFile` compares) and its bytes. */
  datatype FileView = FileView(id: int, content: seq<byte>)

  /** The result of a stat: identity and size. */
  datatype FileInfo = FileInfo(id: int, size: int)

  function Info(v: FileView): FileInfo {
    FileInfo(v.id, |v.content|)
  }

  /** `sameFile`: false when either side is missing, otherwise identity equality. */
  predicate SameFile(a: Option<FileInfo>, b: Option<FileInfo>) {
    a.Some? && b.Some? && a.value.id == b.value.id
  }

  /**
   * The rotation test of the read loop: it holds exactly when no stat is
   * recorded, the recorded file has another identity, or the file shrank
   * below `pos`.
   */
  predicate Rotated(st: Option<FileInfo>, cur: FileInfo, pos: int) {
    !SameFile(st, Some(cur)) || cur.size < pos
  }

  /** Where `openFile` positions a newly opened file. */
  function StartPos(fromStart: bool, size: int): (r: int)
    ensures fromStart ==> r == 0
    ensures !fromStart ==> r == size
  {
    if fromStart then 0 else size
  }

  // ---------------------------------------------------------------------------
  // Line assembly (flushLines)

  predicate NoNewline(b: seq<byte>) {
    forall k :: 0 <= k < |b| ==> b[k] != NL
  }

  predicate LinesWithoutNewline(lines: seq<seq<byte>>) {
    forall k :: 0 <= k < |lines| ==> NoNewline(lines[k])
  }

  /** Complete lines (without their '\n') and the unterminated remainder. */
  datatype Chunks = Chunks(lines: seq<seq<byte>>, rest: seq<byte>)

  /** The lines, each followed by '\n'. */
  function Join(lines: seq<seq<byte>>): seq<byte>
    decreases |lines|
  {
    if lines == [] then [] else Join(lines[..|lines| - 1]) + lines[|lines| - 1] + [NL]
  }

  /** Cut bytes at every '\n' into complete lines and the unterminated remainder. */
  function Split(b: seq<byte>): Chunks
    decreases |b|
  {
    if b == [] then Chunks([], [])
    else
      var p := Split(b[..|b| - 1]);
      var c := b[|b| - 1];
      if c == NL then Chunks(p.lines + [p.rest], []) else Chunks(p.lines, p.rest + [c])
  }

  /** The split lines, each followed by '\n', then the remainder, are the input; no part holds a '\n'. */
  lemma {:induction false} SplitParts(b: seq<byte>)
    ensures Join(Split(b).lines) + Split(b).rest == b
    ensures NoNewline(Split(b).rest)
    ensures LinesWithoutNewline(Split(b).lines)
    decreases |b|
  {
    if b != [] {
      var p := Split(b[..|b| - 1]);
      var c := b[|b| - 1];
      SplitParts(b[..|b| - 1]);
      assert b == b[..|b| - 1] + [c];
      if c == NL {
        assert (p.lines + [p.rest])[..|p.lines|] == p.lines;
      }
    }
  }

  /** Splitting joined lines gives the lines and the remainder back. */
  lemma {:induction false} SplitJoin(lines: seq<seq<byte>>, rest: seq<byte>)
    requires NoNewline(rest) && LinesWithoutNewline(lines)
    ensures Split(Join(lines) + rest) == Chunks(lines, rest)
    decreases |Join(lines) + rest|
  {
    var b := Join(lines) + rest;
    if rest != [] {
      var init := rest[..|rest| - 1];
      assert b[..|b| - 1] == Join(lines) + init;
      SplitJoin(lines, init);
      assert init + [rest[|rest| - 1]] == rest;
    } else if lines != [] {
      var init := lines[..|lines| - 1];
      var last := lines[|lines| - 1];
      assert b == Join(init) + last + [NL];
      assert b[..|b| - 1] == Join(init) + last;
      SplitJoin(init, last);
      assert init + [last] == lines;
    }
  }

  /** One trailing '\r' is removed, and only when present. */
  function StripCR(line: seq<byte>): (r: seq<byte>)
    ensures r == line <==> line == [] || line[|line| - 1] != CR
    ensures r != line ==> r + [CR] == line
  {
    if |line| > 0 && line[|line| - 1] == CR then line[..|line| - 1] else line
  }

  function StripAll(lines: seq<seq<byte>>): (r: seq<seq<byte>>)
    ensures |r| == |lines|
    ensures forall k :: 0 <= k < |r| ==> r[k] == StripCR(lines[k])
    decreases |lines|
  {
    if lines == [] then [] else StripAll(lines[..|lines| - 1]) + [StripCR(lines[|lines| - 1])]
  }

  /** Extending the input by one byte extends the split by that byte. */
  lemma SplitSnoc(b: seq<byte>, i: nat, start: nat, lines: seq<seq<byte>>)
    requires start <= i < |b|
    requires Split(b[..i]) == Chunks(lines, b[start..i])
    ensures b[i] == NL ==> Split(b[..i + 1]) == Chunks(lines + [b[start..i]], b[i + 1..i + 1])
    ensures b[i] != NL ==> Split(b[..i + 1]) == Chunks(lines, b[start..i + 1])
  {
    assert b[..i + 1][..i] == b[..i];
    assert b[..i + 1][i] == b[i];
    assert b[start..i] + [b[i]] == b[start..i + 1];
  }

  /** Stripping one more line extends the stripped lines by it. */
  lemma StripAllSnoc(lines: seq<seq<byte>>, line: seq<byte>)
    ensures StripAll(lines + [line]) == StripAll(lines) + [StripCR(line)]
  {
    assert (lines + [line])[..|lines|] == lines;
  }

  /** Bytes without '\n' are held back entirely: an unterminated line is not sent. */
  lemma UnterminatedHeld(b: seq<byte>)
    requires NoNewline(b)
    ensures Split(b) == Chunks([], b)
  {
    SplitJoin([], b);
  }

  /** "foo\r\nbar\n" is sent as "foo" and "bar", with nothing pending. */
  lemma CrLfExample()
    ensures var b: seq<byte> := [102, 111, 111, 13, 10, 98, 97, 114, 10];
            StripAll(Split(b).lines) == [[102, 111, 111], [98, 97, 114]] && Split(b).rest == []
  {
    var foo: seq<byte> := [102, 111, 111, 13];
    var bar: seq<byte> := [98, 97, 114];
    var lines := [foo, bar];
    assert lines[..1] == [foo];
    assert [foo][..0] == [];
    assert Join([foo]) == Join([]) + foo + [NL];
    assert Join([foo]) == foo + [NL];
    assert Join(lines) == Join([foo]) + bar + [NL];
    var b := Join(lines);
    assert b == [102, 111, 111, 13, 10, 98, 97, 114, 10];
    SplitJoin(lines, []);
    assert b + [] == b;
    var r := StripAll(lines);
    assert StripCR(foo) == [102, 111, 111];
    assert StripCR(bar) == bar;
    assert r == [r[0], r[1]];
  }

  /**
   * The loop of `flushLines`: cut `b` after every '\n' and strip one '\r'
   * before it; `start` is where the unterminated remainder begins.
   */
  method CutLines(b: seq<byte>) returns (out: seq<seq<byte>>, start: nat)
    ensures start <= |b|
    ensures out == StripAll(Split(b).lines)
    ensures b[start..] == Split(b).rest
  {
    start := 0;
    out := [];
    ghost var lines: seq<seq<byte>> := [];
    for i := 0 to |b|
      invariant 0 <= start <= i
      invariant Split(b[..i]) == Chunks(lines, b[start..i])
      invariant out == StripAll(lines)
    {
      SplitSnoc(b, i, start, lines);
      if b[i] == NL {
        var line := b[start..i];
        if |line| > 0 && line[|line| - 1] == CR {
          line := line[..|line| - 1];
        }
        StripAllSnoc(lines, b[start..i]);
        out := out + [line];
        lines := lines + [b[start..i]];
        start := i + 1;
      }
    }
    assert b[..|b|] == b;
  }

  // ---------------------------------------------------------------------------
  // The tailer object

  /** How `Start` ends when it returns before the read loop: the path is empty, or the file does not exist yet. */
  datatype StartResult = EmptyPath | Waiting | Running

  class Tailer {
    const opt: Options
    /** The open handle, by the identity of the file it reads; `None` is a nil `f`. */
    var f: Option<int>
    /** The stat recorded at open time; `None` is a nil `st`. */
    var st: Option<FileInfo>
    /** The read position of the open handle. */
    var pos: int
    /** The unterminated tail of what was read. */
    var pending: seq<byte>
    /** The bytes read since the file was last opened, and the lines completed from them. */
    ghost var consumed: seq<byte>
    ghost var completed: seq<seq<byte>>

    /**
     * A handle and its stat are set and cleared together and name the same
     * file; the position is never negative; and what was read since the file
     * was opened is exactly the completed lines, each with its '\n', followed
     * by the pending bytes, which hold no '\n'.
     */
    ghost predicate Valid()
      reads this
    {
      && (f.None? <==> st.None?)
      && (f.Some? ==> f.value == st.value.id)
      && pos >= 0
      && opt.readChunk > 0
      && NoNewline(pending)
      && LinesWithoutNewline(completed)
      && Join(completed) + pending == consumed
    }

    /** `New`: nothing open yet; defaults filled in. */
    constructor (o: Options)
      ensures Valid()
      ensures opt == WithDefaults(o)
      ensures f.None? && st.None? && pos == 0 && pending == []
    {
      opt := WithDefaults(o);
      f := None;
      st := None;
      pos := 0;
      pending := [];
      consumed := [];
      completed := [];
    }

    /** `openFile`: open what the path names, positioned at 0 or at its end. */
    method OpenFile(disk: Option<FileView>) returns (ok: bool)
      modifies this
      ensures ok == disk.Some?
      ensures ok ==> f == Some(disk.value.id) && st == Some(Info(disk.value))
                     && pos == StartPos(opt.fromStart, |disk.value.content|)
      ensures !ok ==> f == old(f) && st == old(st) && pos == old(pos)
      ensures pending == old(pending) && consumed == old(consumed) && completed == old(completed)
    {
      if disk.None? {
        return false;
      }
      var file := disk.value;
      var info := Info(file);
      var startPos := if opt.fromStart then 0 else info.size;
      f := Some(file.id);
      st := Some(info);
      pos := startPos;
      return true;
    }

    /** `closeFile`: forget the handle, its stat and the position. */
    method CloseFile()
      requires Valid()
      modifies this
      ensures Valid()
      ensures f.None? && st.None? && pos == 0
      ensures pending == old(pending) && consumed == old(consumed) && completed == old(completed)
    {
      f := None;
      st := None;
      pos := 0;
    }

    /**
     * `flushLines`: send every complete line of `b`, without its '\n' and
     * without one trailing '\r', and keep the unterminated remainder as the
     * new pending bytes.
     */
    method FlushLines(b: seq<byte>) returns (out: seq<seq<byte>>)
      modifies this
      ensures out == StripAll(Split(b).lines)
      ensures pending == Split(b).rest
      ensures f == old(f) && st == old(st) && pos == old(pos)
      ensures consumed == old(consumed) && completed == old(completed)
    {
      var start;
      out, start := CutLines(b);
      pending := b[start..];
    }

    /** `Start` up to the read loop: refuse an empty path, otherwise try to open the file. */
    method Start(disk: Option<FileView>) returns (r: StartResult)
      requires Valid()
      modifies this
      ensures Valid()
      ensures opt.path == [] ==> r == EmptyPath && f == old(f) && st == old(st) && pos == old(pos)
      ensures opt.path != [] && disk.None? ==> r == Waiting && f == old(f) && st == old(st) && pos == old(pos)
      ensures opt.path != [] && disk.Some? ==> r == Running && f == Some(disk.value.id)
                                                && st == Some(Info(disk.value))
                                                && pos == StartPos(opt.fromStart, |disk.value.content|)
                                                && pending == []
    {
      if opt.path == [] {
        return EmptyPath;
      }
      var ok := OpenFile(disk);
      if !ok {
        return Waiting;
      }
      pending := [];
      consumed := [];
      completed := [];
      return Running;
    }

    /**
     * With no file open, a poll whose stat succeeds always takes the rotation
     * branch, so the `f == nil` branch of the read loop is never reached.
     */
    lemma NilHandleRotates(cur: FileInfo)
      requires Valid() && f.None?
      ensures Rotated(st, cur, pos)
    {
    }

    /**
     * One pass of the read loop. `disk` is what the path names at this poll;
     * `readFails` says that reading reported an error other than end of file.
     * The result is the lines sent on the output channel.
     */
    method Tick(disk: Option<FileView>, readFails: bool) returns (out: seq<seq<byte>>)
      requires Valid()
      modifies this
      ensures Valid()
      // the file is missing: close and retry later
      ensures disk.None? ==> out == [] && f.None? && st.None? && pos == 0 && pending == old(pending)
      // rotated or truncated: reopen, drop the pending bytes
      ensures disk.Some? && Rotated(old(st), Info(disk.value), old(pos)) ==>
                out == [] && f == Some(disk.value.id) && st == Some(Info(disk.value))
                && pos == StartPos(opt.fromStart, |disk.value.content|) && pending == []
      // the same file, at most as long as the position: read it
      ensures disk.Some? && !Rotated(old(st), Info(disk.value), old(pos)) ==>
                ReadOutcome(old(pos), old(pending), disk.value.content, opt.readChunk, readFails, out, f.Some?, pos, pending)
                && (f.Some? ==> f == old(f) && st == old(st))
                && (f.None? ==> st.None?)
    {
      var st0 := st;
      var pos0 := pos;
      out := [];
      if disk.None? {
        CloseFile();
        return;
      }
      var file := disk.value;
      var cur := Info(file);
      var rotated := false;
      if !SameFile(st0, Some(cur)) {
        rotated := true;
      } else if cur.size < pos0 {
        rotated := true;
      }
      if rotated {
        CloseFile();
        var ok := OpenFile(disk);
        if !ok {
          return;
        }
        pending := [];
        consumed := [];
        completed := [];
        return;
      }
      // The `f == nil` branch of the loop is not reachable: a nil handle has a nil stat, which the rotation test caught.
      assert f.Some?;
      out := Read(file, readFails);
    }

    /** The end of a pass on the file that is open: read up to one chunk at `pos` and send the completed lines. */
    method Read(file: FileView, readFails: bool) returns (out: seq<seq<byte>>)
      requires Valid() && f.Some? && pos <= |file.content|
      modifies this
      ensures Valid()
      ensures ReadOutcome(old(pos), old(pending), file.content, opt.readChunk, readFails, out, f.Some?, pos, pending)
      ensures f.Some? ==> f == old(f) && st == old(st)
      ensures f.None? ==> st.None?
    {
      out := [];
      if readFails {
        // an error other than end of file, at any position: close and reopen later
        CloseFile();
        return;
      }
      if pos == |file.content| {
        // end of file: no new data yet
        return;
      }
      var n := if |file.content| - pos < opt.readChunk then |file.content| - pos else opt.readChunk;
      out := ReadChunk(file.content[pos..pos + n]);
    }

    /** A successful read of `bytes` at `pos`: send the lines they complete and advance. */
    method ReadChunk(bytes: seq<byte>) returns (out: seq<seq<byte>>)
      requires Valid() && f.Some?
      modifies this
      ensures Valid()
      ensures out == StripAll(Split(old(pending) + bytes).lines)
      ensures pending == Split(old(pending) + bytes).rest
      ensures pos == old(pos) + |bytes| && f == old(f) && st == old(st)
    {
      var data := pending + bytes;
      ghost var chunks := Split(data);
      SplitParts(data);
      ReadKeepsLines(completed, pending, consumed, bytes, chunks.lines, chunks.rest);
      completed := completed + chunks.lines;
      consumed := consumed + bytes;
      out := FlushLines(data);
      pos := pos + |bytes|;
    }
  }

  /**
   * What a read at `pos` of `content` does: a read error other than end of
   * file closes the file (position 0) and keeps the pending bytes, wherever
   * the position is; otherwise at the end of the file nothing changes; and
   * otherwise `n`, the smaller of the chunk size and what is left, bytes are
   * read, the position advances by exactly `n`, and the completed lines of the
   * pending bytes followed by the new ones are sent.
   */
  ghost predicate ReadOutcome(pos: int, pending: seq<byte>, content: seq<byte>, chunk: int, readFails: bool,
                              out: seq<seq<byte>>, open: bool, pos': int, pending': seq<byte>)
    requires 0 <= pos <= |content| && chunk > 0
  {
    if readFails then
      out == [] && !open && pos' == 0 && pending' == pending
    else if pos == |content| then
      out == [] && open && pos' == pos && pending' == pending
    else
      var n := if |content| - pos < chunk then |content| - pos else chunk;
      var chunks := Split(pending + content[pos..pos + n]);
      && open && pos' == pos + n
      && out == StripAll(chunks.lines) && pending' == chunks.rest
  }

  /** Joining two runs of lines is joining each. */
  lemma {:induction false} JoinAppend(a: seq<seq<byte>>, b: seq<seq<byte>>)
    ensures Join(a + b) == Join(a) + Join(b)
    decreases |b|
  {
    if b == [] {
      assert a + b == a;
    } else {
      var init := b[..|b| - 1];
      assert (a + b)[..|a + b| - 1] == a + init;
      JoinAppend(a, init);
    }
  }

  /** Reading more bytes keeps "completed lines, then pending bytes, are what was read". */
  lemma ReadKeepsLines(completed: seq<seq<byte>>, pending: seq<byte>, consumed: seq<byte>, more: seq<byte>,
                       lines: seq<seq<byte>>, rest: seq<byte>)
    requires Join(completed) + pending == consumed
    requires Join(lines) + rest == pending + more
    requires LinesWithoutNewline(completed) && LinesWithoutNewline(lines)
    ensures Join(completed + lines) + rest == consumed + more
    ensures LinesWithoutNewline(completed + lines)
  {
    JoinAppend(completed, lines);
    calc {
      Join(completed + lines) + rest;
      Join(completed) + Join(lines) + rest;
      Join(completed) + (Join(lines) + rest);
      consumed + more;
    }
    forall k | 0 <= k < |completed + lines|
      ensures NoNewline((completed + lines)[k])
    {
      if k >= |completed| {
        assert (completed + lines)[k] == lines[k - |completed|];
      }
    }
  }

}
