/**
 * The front end's duration label: elapsed milliseconds written as
 * "Xh Ym Zs", leaving out the leading parts that are zero. Timestamps are
 * whole milliseconds; the current time is the parameter `now`.
 */
module Format {
  import opened Wrappers
  import opened Decimal
  import opened Collections

  /** The end of the interval: the given end when it is set and positive, otherwise now. */
  function EndOf(endMs: Option<int>, now: int): (e: int)
    ensures endMs.Some? && endMs.value > 0 ==> e == endMs.value
    ensures endMs.None? || endMs.value <= 0 ==> e == now
  {
    if endMs.Some? && endMs.value > 0 then endMs.value else now
  }

  /** Elapsed milliseconds, clamped at zero when the end lies before the start. */
  function Elapsed(startMs: int, endMs: Option<int>, now: int): (ms: nat)
    ensures EndOf(endMs, now) <= startMs ==> ms == 0
    ensures EndOf(endMs, now) >= startMs ==> ms == EndOf(endMs, now) - startMs
  {
    var d := EndOf(endMs, now) - startMs;
    if d < 0 then 0 else d
  }

  /** One part of a label: a count and its unit letter, written as in "5s". */
  datatype Piece = Piece(count: nat, unit: char)

  predicate IsUnit(u: char) {
    u == 'h' || u == 'm' || u == 's'
  }

  function Text(p: Piece): string {
    Show(p.count) + [p.unit]
  }

  function Texts(ps: seq<Piece>): seq<string> {
    seq(|ps|, i requires 0 <= i < |ps| => Text(ps[i]))
  }

  /**
   * The parts for `h` hours, `mm` minutes and `ss` seconds, largest unit
   * first: hours only when there are some, minutes when there are hours or
   * minutes, seconds always.
   */
  function Layout(h: nat, mm: nat, ss: nat): seq<Piece> {
    if h > 0 then [Piece(h, 'h'), Piece(mm, 'm'), Piece(ss, 's')]
    else if mm > 0 then [Piece(mm, 'm'), Piece(ss, 's')]
    else [Piece(ss, 's')]
  }

  /** The parts of the label for `ms` milliseconds. */
  function Pieces(ms: nat): seq<Piece> {
    var s := ms / 1000;
    var m := s / 60;
    var h := m / 60;
    var rems := s % 60;
    var remm := m % 60;
    Layout(h, remm, rems)
  }

  /** Strings joined with one space between neighbours. */
  function JoinSpace(parts: seq<string>): string
    decreases |parts|
  {
    if parts == [] then ""
    else if |parts| == 1 then parts[0]
    else JoinSpace(parts[..|parts| - 1]) + " " + parts[|parts| - 1]
  }

  function Render(ms: nat): string {
    JoinSpace(Texts(Pieces(ms)))
  }

  /** The label for a session that started at `startMs`; an unset start reads "0s". */
  function FmtDur(startMs: int, endMs: Option<int>, now: int): (r: string)
    ensures startMs == 0 ==> r == "0s"
  {
    if startMs == 0 then "0s" else Render(Elapsed(startMs, endMs, now))
  }

  // ---------------------------------------------------------------------------
  // Reading a label back
  // ---------------------------------------------------------------------------

  /** `s` holds no space, checked from the right. */
  predicate NoSpace(s: string)
    decreases |s|
  {
    s == [] || (s[|s| - 1] != ' ' && NoSpace(s[..|s| - 1]))
  }

  /** Splitting on spaces, left to right: the words already closed and the word being read. */
  datatype Scan = Scan(closed: seq<string>, word: string)

  function Scanned(s: string): Scan
    decreases |s|
  {
    if s == [] then Scan([], "")
    else
      var sc := Scanned(s[..|s| - 1]);
      if s[|s| - 1] == ' ' then Scan(sc.closed + [sc.word], "") else Scan(sc.closed, sc.word + [s[|s| - 1]])
  }

  /** The pieces between the spaces of `s`, as a string split on ' ' yields them. */
  function SplitSpaces(s: string): (r: seq<string>)
    ensures |r| >= 1
  {
    Scanned(s).closed + [Scanned(s).word]
  }

  /** A non-empty string of decimal digits read as a number; None for anything else. */
  function ReadNat(s: string): Option<nat>
    decreases |s|
  {
    if s == [] || !IsDigit(s[|s| - 1]) then None
    else if |s| == 1 then Some(DigitValue(s[0]))
    else
      match ReadNat(s[..|s| - 1])
      case None => None
      case Some(v) => Some(10 * v + DigitValue(s[|s| - 1]))
  }

  /** One word of a label: digits followed by 'h', 'm' or 's'. */
  function ReadPiece(t: string): Option<Piece> {
    if |t| < 2 || !IsUnit(t[|t| - 1]) then None
    else
      match ReadNat(t[..|t| - 1])
      case None => None
      case Some(v) => Some(Piece(v, t[|t| - 1]))
  }

  /** Every word read as a part, or None when one of them is not a part. */
  function ReadPieces(ts: seq<string>): Option<seq<Piece>>
    decreases |ts|
  {
    if ts == [] then Some([])
    else
      match (ReadPieces(ts[..|ts| - 1]), ReadPiece(ts[|ts| - 1]))
      case (Some(ps), Some(p)) => Some(ps + [p])
      case _ => None
  }

  /** The seconds one part stands for. */
  function PieceSeconds(p: Piece): nat {
    if p.unit == 'h' then 3600 * p.count
    else if p.unit == 'm' then 60 * p.count
    else if p.unit == 's' then p.count
    else 0
  }

  function Seconds(ps: seq<Piece>): nat
    decreases |ps|
  {
    if ps == [] then 0 else Seconds(ps[..|ps| - 1]) + PieceSeconds(ps[|ps| - 1])
  }

  /** The whole seconds a label denotes, or None when it is not a sequence of parts. */
  function ParseDur(s: string): Option<nat> {
    match ReadPieces(SplitSpaces(s))
    case None => None
    case Some(ps) => Some(Seconds(ps))
  }

  // ---------------------------------------------------------------------------
  // Splitting and joining
  // ---------------------------------------------------------------------------

  /** A character other than a space extends the word being read. */
  lemma ScanChar(x: string, c: char)
    requires c != ' '
    ensures Scanned(x + [c]) == Scan(Scanned(x).closed, Scanned(x).word + [c])
  {
    assert (x + [c])[..|x|] == x;
  }

  /** A space closes the word being read. */
  lemma ScanSpace(x: string)
    ensures Scanned(x + " ") == Scan(Scanned(x).closed + [Scanned(x).word], "")
  {
    assert (x + " ")[..|x|] == x;
  }

  /** Appending a word without spaces extends the word being read. */
  lemma {:induction false} ScanWord(x: string, w: string)
    requires NoSpace(w)
    ensures Scanned(x + w) == Scan(Scanned(x).closed, Scanned(x).word + w)
    decreases |w|
  {
    if w == [] {
      assert x + w == x && Scanned(x).word + w == Scanned(x).word;
    } else {
      var w', c := w[..|w| - 1], w[|w| - 1];
      ScanWord(x, w');
      ScanChar(x + w', c);
      AppendFrontLast(x, w);
      AppendFrontLast(Scanned(x).word, w);
    }
  }

  /** Scanning a join of words without spaces: all but the last are closed, the last is being read. */
  lemma {:induction false} ScanJoin(parts: seq<string>)
    requires |parts| >= 1
    requires forall k :: 0 <= k < |parts| ==> NoSpace(parts[k])
    ensures Scanned(JoinSpace(parts)) == Scan(parts[..|parts| - 1], parts[|parts| - 1])
    decreases |parts|
  {
    var last := parts[|parts| - 1];
    if |parts| == 1 {
      ScanWord("", last);
      assert "" + last == last;
    } else {
      var init := parts[..|parts| - 1];
      assert forall k :: 0 <= k < |init| ==> NoSpace(init[k]) by {
        forall k | 0 <= k < |init|
          ensures NoSpace(init[k])
        {
          assert init[k] == parts[k];
        }
      }
      ScanJoin(init);
      FrontLast(init);
      ScanSpace(JoinSpace(init));
      ScanWord(JoinSpace(init) + " ", last);
      assert "" + last == last;
    }
  }

  /** Splitting undoes joining when no piece holds a space. */
  lemma SplitJoinSpace(parts: seq<string>)
    requires |parts| >= 1
    requires forall k :: 0 <= k < |parts| ==> NoSpace(parts[k])
    ensures SplitSpaces(JoinSpace(parts)) == parts
  {
    ScanJoin(parts);
    FrontLast(parts);
  }

  // ---------------------------------------------------------------------------
  // Reading parts back
  // ---------------------------------------------------------------------------

  /** The digits of a positive number read back as that number. */
  lemma {:induction false} ReadDigits(n: nat)
    requires n > 0
    ensures ReadNat(Digits(n)) == Some(n)
  {
    var s := Digits(n);
    assert s[..|s| - 1] == Digits(n / 10);
    if n / 10 > 0 {
      ReadDigits(n / 10);
    }
  }

  lemma ReadShow(n: nat)
    ensures ReadNat(Show(n)) == Some(n)
  {
    if n > 0 {
      ReadDigits(n);
    }
  }

  /** Decimal digits hold no space. */
  lemma {:induction false} DigitsNoSpace(n: nat)
    ensures NoSpace(Digits(n))
  {
    if n > 0 {
      var s := Digits(n);
      assert s[..|s| - 1] == Digits(n / 10);
      DigitsNoSpace(n / 10);
    }
  }

  /** The text of a part holds no space and reads back as the part. */
  lemma ReadText(p: Piece)
    requires IsUnit(p.unit)
    ensures NoSpace(Text(p))
    ensures ReadPiece(Text(p)) == Some(p)
  {
    var t := Text(p);
    assert t[..|t| - 1] == Show(p.count);
    ReadShow(p.count);
    DigitsNoSpace(p.count);
    assert NoSpace(Show(p.count)) by {
      if p.count == 0 {
        assert Show(p.count)[..0] == [];
      }
    }
  }

  /** One more part, one more text. */
  lemma TextsSnoc(ps: seq<Piece>, p: Piece)
    ensures Texts(ps + [p]) == Texts(ps) + [Text(p)]
  {
    var l := Texts(ps + [p]);
    var r := Texts(ps) + [Text(p)];
    assert |l| == |r|;
    forall k | 0 <= k < |l|
      ensures l[k] == r[k]
    {
      if k < |ps| {
        assert (ps + [p])[k] == ps[k];
      }
    }
  }

  /** Reading one more word that is a part. */
  lemma ReadPiecesSnoc(ts: seq<string>, t: string, qs: seq<Piece>, q: Piece)
    requires ReadPieces(ts) == Some(qs) && ReadPiece(t) == Some(q)
    ensures ReadPieces(ts + [t]) == Some(qs + [q])
  {
    assert (ts + [t])[..|ts|] == ts;
  }

  /** The texts of parts read back as those parts. */
  lemma {:induction false} ReadTexts(ps: seq<Piece>)
    requires forall i :: 0 <= i < |ps| ==> IsUnit(ps[i].unit)
    ensures ReadPieces(Texts(ps)) == Some(ps)
    decreases |ps|
  {
    if ps == [] {
      assert Texts(ps) == [];
    } else {
      var init := ps[..|ps| - 1];
      var last := ps[|ps| - 1];
      ReadTexts(init);
      ReadText(last);
      TextsSnoc(init, last);
      assert init + [last] == ps;
      ReadPiecesSnoc(Texts(init), Text(last), init, last);
    }
  }

  /** No text of a part holds a space. */
  lemma TextsNoSpace(ps: seq<Piece>)
    requires forall i :: 0 <= i < |ps| ==> IsUnit(ps[i].unit)
    ensures forall k :: 0 <= k < |ps| ==> NoSpace(Texts(ps)[k])
  {
    forall k | 0 <= k < |ps|
      ensures NoSpace(Texts(ps)[k])
    {
      ReadText(ps[k]);
    }
  }

  /** Any non-empty row of parts, joined, reads back as its total in seconds. */
  lemma ParseJoined(ps: seq<Piece>)
    requires |ps| >= 1
    requires forall i :: 0 <= i < |ps| ==> IsUnit(ps[i].unit)
    ensures ParseDur(JoinSpace(Texts(ps))) == Some(Seconds(ps))
  {
    ReadTexts(ps);
    TextsNoSpace(ps);
    SplitJoinSpace(Texts(ps));
  }

  // ---------------------------------------------------------------------------
  // The round trip
  // ---------------------------------------------------------------------------

  /** The seconds of one, two and three parts. */
  lemma SecondsSmall(a: Piece, b: Piece, c: Piece)
    ensures Seconds([c]) == PieceSeconds(c)
    ensures Seconds([b, c]) == PieceSeconds(b) + PieceSeconds(c)
    ensures Seconds([a, b, c]) == PieceSeconds(a) + PieceSeconds(b) + PieceSeconds(c)
  {
    assert [c][..0] == [];
    assert Seconds([b]) == PieceSeconds(b) by { assert [b][..0] == []; }
    assert [b, c][..1] == [b];
    assert Seconds([a]) == PieceSeconds(a) by { assert [a][..0] == []; }
    assert Seconds([a, b]) == Seconds([a]) + PieceSeconds(b) by { assert [a, b][..1] == [a]; }
    assert [a, b, c][..2] == [a, b];
  }

  /** A layout is a non-empty row of parts with valid units, adding up to its total in seconds. */
  lemma LayoutSeconds(h: nat, mm: nat, ss: nat)
    ensures var l := Layout(h, mm, ss);
            |l| >= 1 && (forall i :: 0 <= i < |l| ==> IsUnit(l[i].unit))
            && Seconds(l) == 3600 * h + 60 * mm + ss
  {
    SecondsSmall(Piece(h, 'h'), Piece(mm, 'm'), Piece(ss, 's'));
  }

  /** Reading back a layout gives its total in seconds. */
  lemma LayoutRoundTrip(h: nat, mm: nat, ss: nat)
    ensures ParseDur(JoinSpace(Texts(Layout(h, mm, ss)))) == Some(3600 * h + 60 * mm + ss)
  {
    var l := Layout(h, mm, ss);
    LayoutSeconds(h, mm, ss);
    ParseJoined(l);
  }

  /** The parts of a label are the layout of its hours, minutes of the hour and seconds of the minute. */
  lemma PiecesLayout(ms: nat)
    ensures var s := ms / 1000;
            Pieces(ms) == Layout(s / 60 / 60, s / 60 % 60, s % 60)
            && s == 3600 * (s / 60 / 60) + 60 * (s / 60 % 60) + s % 60
  {
    var s := ms / 1000;
    assert s == 60 * (s / 60) + s % 60 && s / 60 == 60 * (s / 60 / 60) + s / 60 % 60;
  }

  /** Reading a label back gives the elapsed whole seconds. */
  lemma RenderRoundTrip(ms: nat)
    ensures ParseDur(Render(ms)) == Some(ms / 1000)
  {
    var s := ms / 1000;
    PiecesLayout(ms);
    LayoutRoundTrip(s / 60 / 60, s / 60 % 60, s % 60);
  }

  /** The label of no time at all. */
  lemma RenderZero()
    ensures Render(0) == "0s"
  {
    assert Pieces(0) == [Piece(0, 's')];
    TextsSmall(Piece(0, 's'), Piece(0, 's'), Piece(0, 's'));
    JoinSmall("0s", "", "");
  }

  /** The label of a session reads back as its elapsed whole seconds. */
  lemma FmtDurRoundTrip(startMs: int, endMs: Option<int>, now: int)
    ensures startMs != 0 ==> ParseDur(FmtDur(startMs, endMs, now)) == Some(Elapsed(startMs, endMs, now) / 1000)
    ensures startMs == 0 ==> ParseDur(FmtDur(startMs, endMs, now)) == Some(0)
  {
    if startMs == 0 {
      RenderRoundTrip(0);
      RenderZero();
    } else {
      RenderRoundTrip(Elapsed(startMs, endMs, now));
    }
  }

  /** The shape of a label: seconds always, minutes when hours or minutes are non-zero, hours when non-zero. */
  lemma PiecesShape(ms: nat)
    ensures var p := Pieces(ms);
            var m := ms / 1000 / 60;
            1 <= |p| <= 3
            && p[|p| - 1] == Piece(ms / 1000 % 60, 's')
            && (|p| == 3 <==> m / 60 > 0)
            && (|p| >= 2 <==> m / 60 > 0 || m % 60 > 0)
            && (|p| >= 2 ==> p[|p| - 2] == Piece(m % 60, 'm'))
            && (|p| == 3 ==> p[0] == Piece(m / 60, 'h'))
  {
  }

  /** An end before the start shows as "0s". */
  lemma NegativeClamped(startMs: int, endMs: Option<int>, now: int)
    requires startMs != 0 && EndOf(endMs, now) < startMs
    ensures FmtDur(startMs, endMs, now) == "0s"
  {
    RenderZero();
  }

  // ---------------------------------------------------------------------------
  // Examples
  // ---------------------------------------------------------------------------

  /** The texts of one, two and three parts. */
  lemma TextsSmall(a: Piece, b: Piece, c: Piece)
    ensures Texts([a]) == [Text(a)]
    ensures Texts([a, b]) == [Text(a), Text(b)]
    ensures Texts([a, b, c]) == [Text(a), Text(b), Text(c)]
  {
    TextsSnoc([], a);
    TextsSnoc([a], b);
    TextsSnoc([a, b], c);
    assert [] + [a] == [a] && [a] + [b] == [a, b] && [a, b] + [c] == [a, b, c];
  }

  /** Joins of one, two and three strings. */
  lemma JoinSmall(a: string, b: string, c: string)
    ensures JoinSpace([a]) == a
    ensures JoinSpace([a, b]) == a + " " + b
    ensures JoinSpace([a, b, c]) == a + " " + b + " " + c
  {
    assert [a, b][..1] == [a];
    assert [a, b, c][..2] == [a, b];
  }

  /** The texts of the parts in the examples below. */
  lemma SmallTexts()
    ensures Text(Piece(0, 'm')) == "0m" && Text(Piece(1, 'm')) == "1m"
    ensures Text(Piece(1, 'h')) == "1h" && Text(Piece(5, 's')) == "5s"
  {
    assert Show(1) == "1" by { assert Digits(1) == Digits(0) + ['1']; }
    assert Show(5) == "5" by { assert Digits(5) == Digits(0) + ['5']; }
  }

  /** A label of seconds only. */
  lemma SecondsExample()
    ensures Render(5000) == "5s"
  {
    SmallTexts();
    assert Pieces(5000) == [Piece(5, 's')];
    TextsSmall(Piece(5, 's'), Piece(5, 's'), Piece(5, 's'));
    JoinSmall("5s", "", "");
  }

  /** A label of minutes and seconds. */
  lemma MinutesExample()
    ensures Render(65000) == "1m 5s"
  {
    SmallTexts();
    assert Pieces(65000) == [Piece(1, 'm'), Piece(5, 's')];
    TextsSmall(Piece(1, 'm'), Piece(5, 's'), Piece(5, 's'));
    JoinSmall("1m", "5s", "");
  }

  /** Once there are hours, a zero minute count is still written. */
  lemma HoursExample()
    ensures Render(3605000) == "1h 0m 5s"
  {
    SmallTexts();
    assert Pieces(3605000) == [Piece(1, 'h'), Piece(0, 'm'), Piece(5, 's')];
    TextsSmall(Piece(1, 'h'), Piece(0, 'm'), Piece(5, 's'));
    JoinSmall("1h", "0m", "5s");
  }
}
