/**
 * The line classifier of internal/parser/parser.go.
 *
 * The four regular expressions are written out as matchers over the line.
 * They follow Go's leftmost-first semantics: the match that starts earliest
 * wins, and among matches starting there the one a backtracking matcher finds
 * first. `\s` is `[\t\n\f\r ]`, `\d` is `[0-9]`, `.` is any character but a
 * newline, and `[^']` also matches a newline.
 */
module Parser {
  import opened Wrappers
  import opened Events
  import opened Decimal

  // The fixed texts of the recognisers.
  const Marker := "GameLog: Display: [Game]"
  const InitTag := "BagMgr@:InitBagData"
  const ModTag := "BagMgr@:Modfy BagItem"
  const PageLabel := "PageId = "
  const SlotLabel := "SlotId = "
  const ConfigLabel := "ConfigBaseId = "
  const NumLabel := "Num = "
  const SceneHead := "PageApplyBase@ _UpdateGameEnd: "
  const SceneNext := "NextSceneName = World'"
  const MapsRoot := "/Game/Art/Maps"
  const MapsDir := "/Game/Art/Maps/"

  /** The scene of the safe hub: a transition to it ends the current map. */
  const RefugePath := "/Game/Art/Maps/01SD/XZ_YuJinZhiXiBiNanSuo200/XZ_YuJinZhiXiBiNanSuo200.XZ_YuJinZhiXiBiNanSuo200"

  predicate IsSpace(c: char) {
    c == '\t' || c == '\n' || c == '\U{C}' || c == '\r' || c == ' '
  }

  predicate IsEol(c: char) {
    c == '\r' || c == '\n'
  }

  /** No newline at any index in [a, b). */
  predicate Clear(line: string, a: int, b: int)
    requires 0 <= a && b <= |line|
  {
    forall k :: a <= k < b ==> line[k] != '\n'
  }

  // ---------------------------------------------------------------------------
  // strings.TrimRight(line, "\r\n")

  /** The line without its trailing run of carriage returns and line feeds. */
  function TrimEol(s: string): (r: string)
    ensures r <= s
    ensures r == [] || !IsEol(r[|r| - 1])
    ensures forall k :: |r| <= k < |s| ==> IsEol(s[k])
  {
    if s != [] && IsEol(s[|s| - 1]) then TrimEol(s[..|s| - 1]) else s
  }

  /** Line endings appended to a line that does not end in one are exactly what is trimmed. */
  lemma {:induction false} TrimEolAppended(line: string, eol: string)
    requires line == [] || !IsEol(line[|line| - 1])
    requires forall k :: 0 <= k < |eol| ==> IsEol(eol[k])
    ensures TrimEol(line + eol) == line
  {
    if eol == [] {
      assert line + eol == line;
    } else {
      var eol' := eol[..|eol| - 1];
      assert (line + eol)[..|line + eol| - 1] == line + eol';
      TrimEolAppended(line, eol');
    }
  }

  // ---------------------------------------------------------------------------
  // atoi

  /** The digits of `s` in order, every other character dropped. */
  function DigitsOf(s: string): (d: string)
    ensures AllDigits(d) && |d| <= |s|
  {
    if s == [] then []
    else DigitsOf(s[..|s| - 1]) + (if IsDigit(s[|s| - 1]) then [s[|s| - 1]] else [])
  }

  /** Filtering distributes over concatenation: the digits of `a + b` are those of `a` followed by those of `b`. */
  lemma {:induction false} DigitsOfConcat(a: string, b: string)
    ensures DigitsOf(a + b) == DigitsOf(a) + DigitsOf(b)
  {
    if b != [] {
      var b' := b[..|b| - 1];
      assert (a + b)[..|a + b| - 1] == a + b';
      DigitsOfConcat(a, b');
    } else {
      assert a + b == a;
    }
  }

  /** A string of digits only is its own digit subsequence. */
  lemma {:induction false} DigitsOfDigits(s: string)
    requires AllDigits(s)
    ensures DigitsOf(s) == s
  {
    if s != [] {
      DigitsOfDigits(s[..|s| - 1]);
      assert s == s[..|s| - 1] + [s[|s| - 1]];
    }
  }

  /** What `atoi` returns: the decimal value of the digit subsequence. */
  function AtoiValue(s: string): nat {
    Value(DigitsOf(s))
  }

  /** `atoi`: skips every non-digit and accumulates `n = n*10 + d` over the digits. */
  method Atoi(s: string) returns (n: int)
    ensures n == AtoiValue(s)
    ensures n >= 0
  {
    n := 0;
    for i := 0 to |s|
      invariant n == Value(DigitsOf(s[..i]))
    {
      ghost var d := DigitsOf(s[..i]);
      assert s[..i + 1][..i] == s[..i];
      assert DigitsOf(s[..i + 1]) == d + (if IsDigit(s[i]) then [s[i]] else []);
      var c := s[i];
      if c < '0' || c > '9' {
        assert d + [] == d;
        continue;
      }
      assert (d + [c])[..|d|] == d;
      assert Value(d + [c]) == Value(d) * 10 + DigitValue(c);
      assert DigitValue(c) == c as int - '0' as int;
      n := n * 10 + (c as int - '0' as int);
    }
    assert s[..|s|] == s;
  }

  /** `atoi` reads back what decimal notation writes. */
  lemma AtoiOfShow(n: nat)
    ensures AtoiValue(Show(n)) == n
  {
    DigitsOfDigits(Show(n));
    ValueOfShow(n);
  }

  // ---------------------------------------------------------------------------
  // The bag recognisers

  /** Capture groups 1 to 4 of a bag line. */
  datatype BagGroups = BagGroups(page: string, slot: string, config: string, num: string)

  predicate Captured(d: string) {
    |d| > 0 && AllDigits(d)
  }

  predicate ValidGroups(g: BagGroups) {
    Captured(g.page) && Captured(g.slot) && Captured(g.config) && Captured(g.num)
  }

  /** Length of the longest white-space prefix. */
  function SpaceRun(s: string): (n: nat)
    ensures n <= |s|
    ensures forall k :: 0 <= k < n ==> IsSpace(s[k])
    ensures n < |s| ==> !IsSpace(s[n])
  {
    if s != [] && IsSpace(s[0]) then 1 + SpaceRun(s[1..]) else 0
  }

  /** Length of the longest digit prefix. */
  function DigitRun(s: string): (n: nat)
    ensures n <= |s|
    ensures AllDigits(s[..n])
    ensures n < |s| ==> !IsDigit(s[n])
  {
    if s != [] && IsDigit(s[0]) then 1 + DigitRun(s[1..]) else 0
  }

  /** `\s*`: what follows the longest white-space prefix. */
  function SkipSpace(s: string): string {
    s[SpaceRun(s)..]
  }

  /** `\s+<key>(\d+)` at the start of `s`: the captured digits and the text after them. */
  function Field(s: string, key: string): (r: Option<(string, string)>)
    ensures r.Some? ==> Captured(r.value.0)
  {
    var w := SpaceRun(s);
    if w == 0 || !(key <= s[w..]) then None
    else
      var t := s[w + |key|..];
      var d := DigitRun(t);
      if d == 0 then None else Some((t[..d], t[d..]))
  }

  /** `\s*GameLog: Display: \[Game\]\s*<tag>` at the start of `s`: the text after the tag. */
  function Preamble(s: string, tag: string): (r: Option<string>)
    ensures r.Some? ==> |r.value| <= |s|
  {
    var a := SkipSpace(s);
    if !(Marker <= a) then None
    else
      var b := SkipSpace(a[|Marker|..]);
      if tag <= b then Some(b[|tag|..]) else None
  }

  /** The keys of the four bag fields, in the order the expression requires them. */
  const Keys := [PageLabel, SlotLabel, ConfigLabel, NumLabel]

  /** `\s+<key>(\d+)` for each key in turn: the captured digit strings. */
  function FieldList(s: string, keys: seq<string>): (r: Option<seq<string>>)
    ensures r.Some? ==> |r.value| == |keys| && forall n :: 0 <= n < |keys| ==> Captured(r.value[n])
  {
    if keys == [] then Some([])
    else
      match Field(s, keys[0])
      case None => None
      case Some((d, rest)) =>
        match FieldList(rest, keys[1..])
        case None => None
        case Some(ds) => Some([d] + ds)
  }

  /** `\s+PageId = (\d+)\s+SlotId = (\d+)\s+ConfigBaseId = (\d+)\s+Num = (\d+)`: capture groups 1 to 4. */
  function Fields(s: string): (r: Option<BagGroups>)
    ensures r.Some? ==> ValidGroups(r.value)
  {
    match FieldList(s, Keys)
    case None => None
    case Some(c) => Some(BagGroups(c[0], c[1], c[2], c[3]))
  }

  /** What a bag regular expression asks for after the closing bracket of its prefix. */
  function BagTail(s: string, tag: string): (r: Option<BagGroups>)
    ensures r.Some? ==> ValidGroups(r.value)
  {
    match Preamble(s, tag)
    case None => None
    case Some(t) => Fields(t)
  }

  /** The bag recogniser for `tag`, as a matcher of the text after a ']'. */
  function TailOf(tag: string): string -> Option<BagGroups> {
    s => BagTail(s, tag)
  }

  // The search below is stated for any `tail` matcher, so that its proofs
  // do not depend on how the text after the bracket prefix is recognised.

  /** A ']' at `j` after which `tail` matches. */
  predicate GoodClose(line: string, tail: string -> Option<BagGroups>, j: int) {
    0 <= j < |line| && line[j] == ']' && tail(line[j + 1..]).Some?
  }

  /**
   * `(?:\[.*?\]){1,3}` can run from the '[' at `i` to the ']' at `j`. Since `.`
   * matches brackets, one group covers every text that two or three groups do.
   */
  predicate Span(line: string, i: int, j: int) {
    0 <= i < j < |line| && line[i] == '[' && line[j] == ']' && Clear(line, i + 1, j)
  }

  /** The expression matches with its bracket prefix from `i` to `j`. */
  predicate MatchAt(line: string, tail: string -> Option<BagGroups>, i: int, j: int) {
    Span(line, i, j) && GoodClose(line, tail, j)
  }

  /** The lazy `.*?\]`: tries each ']' from `j` on, in order, until a newline. */
  function SearchClose(line: string, tail: string -> Option<BagGroups>, j: nat): Option<BagGroups>
    requires j <= |line|
    decreases |line| - j
  {
    if j == |line| || line[j] == '\n' then None
    else if GoodClose(line, tail, j) then tail(line[j + 1..])
    else SearchClose(line, tail, j + 1)
  }

  /** The unanchored search: tries each '[' from `i` on, leftmost first. */
  function SearchOpen(line: string, tail: string -> Option<BagGroups>, i: nat): Option<BagGroups>
    requires i <= |line|
    decreases |line| - i
  {
    if i == |line| then None
    else if line[i] == '[' && SearchClose(line, tail, i + 1).Some? then SearchClose(line, tail, i + 1)
    else SearchOpen(line, tail, i + 1)
  }

  /** `FindStringSubmatch` of the bag expression whose tag is `tag`. */
  function FindBag(line: string, tag: string): Option<BagGroups> {
    SearchOpen(line, TailOf(tag), 0)
  }

  /** The lazy search from `j0` succeeds exactly when a good ']' is reachable without crossing a newline. */
  lemma {:induction false} SearchCloseSpec(line: string, tail: string -> Option<BagGroups>, j0: nat)
    requires j0 <= |line|
    ensures SearchClose(line, tail, j0).Some? <==>
            exists j :: j0 <= j && GoodClose(line, tail, j) && Clear(line, j0, j)
    decreases |line| - j0
  {
    if j0 == |line| {
    } else if line[j0] == '\n' {
      forall j | j0 <= j && GoodClose(line, tail, j)
        ensures !Clear(line, j0, j)
      {
        assert line[j0] == '\n';
      }
    } else if GoodClose(line, tail, j0) {
      assert Clear(line, j0, j0);
    } else {
      SearchCloseSpec(line, tail, j0 + 1);
      if SearchClose(line, tail, j0).Some? {
        var j :| j0 + 1 <= j && GoodClose(line, tail, j) && Clear(line, j0 + 1, j);
        assert Clear(line, j0, j);
      }
      forall j | j0 <= j && GoodClose(line, tail, j) && Clear(line, j0, j)
        ensures j0 + 1 <= j && Clear(line, j0 + 1, j)
      {
      }
    }
  }

  /** When the lazy search succeeds, it stops at the first good ']'. */
  lemma {:induction false} SearchCloseSound(line: string, tail: string -> Option<BagGroups>, j0: nat) returns (j: nat)
    requires j0 <= |line| && SearchClose(line, tail, j0).Some?
    ensures j0 <= j && GoodClose(line, tail, j) && Clear(line, j0, j)
    ensures SearchClose(line, tail, j0) == tail(line[j + 1..])
    ensures forall k :: j0 <= k < j ==> !GoodClose(line, tail, k)
    decreases |line| - j0
  {
    if GoodClose(line, tail, j0) {
      j := j0;
    } else {
      j := SearchCloseSound(line, tail, j0 + 1);
    }
  }

  /** The lazy search returns what `tail` captures after the first good ']'. */
  lemma {:induction false} SearchCloseFirst(line: string, tail: string -> Option<BagGroups>, j0: nat, j: nat)
    requires j0 <= j && GoodClose(line, tail, j) && Clear(line, j0, j)
    requires forall k :: j0 <= k < j ==> !GoodClose(line, tail, k)
    ensures SearchClose(line, tail, j0) == tail(line[j + 1..])
    decreases j - j0
  {
    if j0 < j {
      SearchCloseFirst(line, tail, j0 + 1, j);
    }
  }

  /** A match found by the search is leftmost, and its prefix ends at the first good ']'. */
  lemma {:induction false} SearchOpenSound(line: string, tail: string -> Option<BagGroups>, i0: nat) returns (i: nat, j: nat)
    requires i0 <= |line| && SearchOpen(line, tail, i0).Some?
    ensures i0 <= i && MatchAt(line, tail, i, j)
    ensures SearchOpen(line, tail, i0) == tail(line[j + 1..])
    ensures forall k :: i < k < j ==> !GoodClose(line, tail, k)
    ensures forall i', j' :: i0 <= i' < i ==> !MatchAt(line, tail, i', j')
    decreases |line| - i0
  {
    SearchCloseSpec(line, tail, i0 + 1);
    if line[i0] == '[' && SearchClose(line, tail, i0 + 1).Some? {
      i := i0;
      j := SearchCloseSound(line, tail, i0 + 1);
    } else {
      assert SearchOpen(line, tail, i0) == SearchOpen(line, tail, i0 + 1);
      i, j := SearchOpenSound(line, tail, i0 + 1);
    }
  }

  /** Leftmost-first: the captures come from the earliest '[' that starts a match, closed at its first good ']'. */
  lemma {:induction false} SearchOpenFirst(line: string, tail: string -> Option<BagGroups>, i0: nat, i: nat, j: nat)
    requires i0 <= i && MatchAt(line, tail, i, j)
    requires forall k :: i < k < j ==> !GoodClose(line, tail, k)
    requires forall i', j' :: i0 <= i' < i ==> !MatchAt(line, tail, i', j')
    ensures SearchOpen(line, tail, i0) == tail(line[j + 1..])
    decreases i - i0
  {
    if i0 == i {
      SearchCloseFirst(line, tail, i + 1, j);
    } else {
      SearchCloseSpec(line, tail, i0 + 1);
      forall j' | i0 + 1 <= j' && GoodClose(line, tail, j') && Clear(line, i0 + 1, j')
        ensures line[i0] != '['
      {
        assert !MatchAt(line, tail, i0, j');
      }
      SearchOpenFirst(line, tail, i0 + 1, i, j);
    }
  }

  /** The search finds a match whenever one exists. */
  lemma {:induction false} SearchOpenComplete(line: string, tail: string -> Option<BagGroups>, i0: nat, i: nat, j: nat)
    requires i0 <= i && MatchAt(line, tail, i, j)
    ensures SearchOpen(line, tail, i0).Some?
    decreases i - i0
  {
    SearchCloseSpec(line, tail, i0 + 1);
    if i0 < i {
      SearchOpenComplete(line, tail, i0 + 1, i, j);
    }
  }

  /** A bag line is found, wherever its bracket prefix starts. */
  lemma FindBagComplete(line: string, tag: string, i: nat, j: nat)
    requires MatchAt(line, TailOf(tag), i, j)
    ensures FindBag(line, tag).Some?
  {
    SearchOpenComplete(line, TailOf(tag), 0, i, j);
  }

  // ---------------------------------------------------------------------------
  // The transition recogniser:
  // `PageApplyBase@ _UpdateGameEnd: .*?NextSceneName = World'(/Game/Art/Maps[^']*)'`

  /** The first `'` at or after `k`. */
  function QuoteFrom(line: string, k: nat): (r: Option<nat>)
    requires k <= |line|
    ensures r.Some? ==> k <= r.value < |line| && line[r.value] == '\''
    ensures r.Some? ==> forall m :: k <= m < r.value ==> line[m] != '\''
    ensures r.None? ==> forall m :: k <= m < |line| ==> line[m] != '\''
    decreases |line| - k
  {
    if k == |line| then None
    else if line[k] == '\'' then Some(k)
    else QuoteFrom(line, k + 1)
  }

  /** `b` sits right after `a` in any string that starts with `a + b`. */
  lemma PrefixParts(s: string, a: string, b: string)
    requires a + b <= s
    ensures s[|a|..|a| + |b|] == b
  {
    assert s[..|a| + |b|] == a + b;
  }

  /** `NextSceneName = World'(/Game/Art/Maps[^']*)'` at the start of `s`: the captured path. */
  function SceneCapture(s: string): (r: Option<string>)
    ensures r.Some? ==> MapsRoot <= r.value && forall m :: 0 <= m < |r.value| ==> r.value[m] != '\''
  {
    if SceneNext + MapsRoot <= s then
      var p := |SceneNext|;
      PrefixParts(s, SceneNext, MapsRoot);
      match QuoteFrom(s, p + |MapsRoot|)
      case Some(q) =>
        assert s[p..q][..|MapsRoot|] == s[p..p + |MapsRoot|];
        Some(s[p..q])
      case None => None
    else None
  }

  /** The transition capture at position `k` of the line. */
  function ScenePathAt(line: string, k: nat): (r: Option<string>)
    requires k <= |line|
    ensures r.Some? ==> MapsRoot <= r.value && forall m :: 0 <= m < |r.value| ==> r.value[m] != '\''
  {
    SceneCapture(line[k..])
  }

  /** The lazy `.*?` before `NextSceneName`: tries each position from `k` on until a newline. */
  function SearchNext(line: string, k: nat): (r: Option<string>)
    requires k <= |line|
    ensures r.Some? ==> MapsRoot <= r.value && forall m :: 0 <= m < |r.value| ==> r.value[m] != '\''
    decreases |line| - k
  {
    if ScenePathAt(line, k).Some? then ScenePathAt(line, k)
    else if k == |line| || line[k] == '\n' then None
    else SearchNext(line, k + 1)
  }

  /** The unanchored search for `PageApplyBase@ _UpdateGameEnd: `, leftmost first. */
  function SearchHead(line: string, i: nat): (r: Option<string>)
    requires i <= |line|
    ensures r.Some? ==> MapsRoot <= r.value && forall m :: 0 <= m < |r.value| ==> r.value[m] != '\''
    decreases |line| - i
  {
    if i == |line| then None
    else if SceneHead <= line[i..] && SearchNext(line, i + |SceneHead|).Some? then SearchNext(line, i + |SceneHead|)
    else SearchHead(line, i + 1)
  }

  /** Capture group 1 of the transition expression: the destination scene path. */
  function FindScene(line: string): (r: Option<string>)
    ensures r.Some? ==> MapsRoot <= r.value && forall m :: 0 <= m < |r.value| ==> r.value[m] != '\''
  {
    SearchHead(line, 0)
  }

  /**
   * The transition expression matches with its head at `i` and its capture
   * at `k`: the lazy `.*?` between them crosses no newline.
   */
  predicate SceneMatchAt(line: string, i: int, k: int) {
    && 0 <= i && i + |SceneHead| <= k <= |line|
    && SceneHead <= line[i..]
    && Clear(line, i + |SceneHead|, k)
    && ScenePathAt(line, k).Some?
  }

  /** The lazy run from `k0` stops at the first capture it reaches before a newline. */
  lemma {:induction false} SearchNextSound(line: string, k0: nat) returns (k: nat)
    requires k0 <= |line| && SearchNext(line, k0).Some?
    ensures k0 <= k <= |line| && Clear(line, k0, k) && SearchNext(line, k0) == ScenePathAt(line, k)
    ensures forall m :: k0 <= m < k ==> ScenePathAt(line, m).None?
    decreases |line| - k0
  {
    if ScenePathAt(line, k0).Some? {
      k := k0;
    } else {
      assert SearchNext(line, k0) == SearchNext(line, k0 + 1);
      k := SearchNextSound(line, k0 + 1);
    }
  }

  /** A capture reachable from `k0` without crossing a newline is found by the lazy run. */
  lemma {:induction false} SearchNextComplete(line: string, k0: nat, k: nat)
    requires k0 <= k <= |line| && Clear(line, k0, k) && ScenePathAt(line, k).Some?
    ensures SearchNext(line, k0).Some?
    decreases k - k0
  {
    if k0 < k && ScenePathAt(line, k0).None? {
      SearchNextComplete(line, k0 + 1, k);
    }
  }

  /** A transition found from `i0` comes from the leftmost head that starts a match, at its first capture. */
  lemma {:induction false} SearchHeadSound(line: string, i0: nat) returns (i: nat, k: nat)
    requires i0 <= |line| && SearchHead(line, i0).Some?
    ensures i0 <= i && SceneMatchAt(line, i, k) && SearchHead(line, i0) == ScenePathAt(line, k)
    ensures forall m :: i + |SceneHead| <= m < k ==> ScenePathAt(line, m).None?
    ensures forall i', k' :: i0 <= i' < i ==> !SceneMatchAt(line, i', k')
    decreases |line| - i0
  {
    if SceneHead <= line[i0..] && SearchNext(line, i0 + |SceneHead|).Some? {
      i := i0;
      k := SearchNextSound(line, i0 + |SceneHead|);
    } else {
      NoMatchAt(line, i0);
      i, k := SearchHeadSound(line, i0 + 1);
      forall i', k' | i0 <= i' < i
        ensures !SceneMatchAt(line, i', k')
      {
        if i' == i0 {
          assert !SceneMatchAt(line, i0, k');
        } else {
          assert i0 + 1 <= i' < i;
        }
      }
    }
  }

  /** A head position the search passes over starts no match. */
  lemma NoMatchAt(line: string, i0: nat)
    requires i0 < |line|
    requires !(SceneHead <= line[i0..] && SearchNext(line, i0 + |SceneHead|).Some?)
    ensures SearchHead(line, i0) == SearchHead(line, i0 + 1)
    ensures forall k :: !SceneMatchAt(line, i0, k)
  {
    forall k | SceneMatchAt(line, i0, k)
      ensures false
    {
      SearchNextComplete(line, i0 + |SceneHead|, k);
    }
  }

  /** A match with its head at or after `i0` is found by the search from `i0`. */
  lemma {:induction false} SearchHeadComplete(line: string, i0: nat, i: nat, k: nat)
    requires i0 <= i && SceneMatchAt(line, i, k)
    ensures SearchHead(line, i0).Some?
    decreases i - i0
  {
    if i0 == i {
      SearchNextComplete(line, i + |SceneHead|, k);
    } else if !(SceneHead <= line[i0..] && SearchNext(line, i0 + |SceneHead|).Some?) {
      SearchHeadComplete(line, i0 + 1, i, k);
    }
  }

  /** Every line in which the transition expression matches somewhere has a transition capture. */
  lemma FindSceneComplete(line: string, i: nat, k: nat)
    requires SceneMatchAt(line, i, k)
    ensures FindScene(line).Some?
  {
    SearchHeadComplete(line, 0, i, k);
  }

  /** Leftmost-first: the capture is the one of the earliest matching head, taken at that head's first capture. */
  lemma FindSceneFirst(line: string, i: nat, k: nat)
    requires SceneMatchAt(line, i, k)
    requires forall i', k' :: 0 <= i' < i ==> !SceneMatchAt(line, i', k')
    requires forall m :: i + |SceneHead| <= m < k ==> ScenePathAt(line, m).None?
    ensures FindScene(line) == ScenePathAt(line, k)
  {
    SearchHeadComplete(line, 0, i, k);
    var i1, k1 := SearchHeadSound(line, 0);
  }

  /**
   * When a head reaches a capture at `k` and no capture starts anywhere
   * before `k`, the transition found is the one at `k`, whichever head the
   * search settles on.
   */
  lemma FindSceneOnly(line: string, i: nat, k: nat)
    requires SceneMatchAt(line, i, k)
    requires forall m :: 0 <= m < k ==> ScenePathAt(line, m).None?
    ensures FindScene(line) == ScenePathAt(line, k)
  {
    SearchHeadComplete(line, 0, i, k);
    var i1, k1 := SearchHeadSound(line, 0);
    assert ScenePathAt(line, k).Some? && ScenePathAt(line, k1).Some?;
    assert i1 <= i;
    assert i1 + |SceneHead| <= k <= k1;
  }

  // ---------------------------------------------------------------------------
  // The timestamp prefix `^\[(\d{4})\.(\d{2})\.(\d{2})-(\d{2})\.(\d{2})\.(\d{2}):(\d{3})\]`

  /** `width` digits at offset `at`. */
  predicate DigitsAt(line: string, at: nat, width: nat) {
    at + width <= |line| && AllDigits(line[at..at + width])
  }

  /** The line begins with the timestamp prefix. */
  predicate StampAt(line: string) {
    && |line| >= 25
    && line[0] == '[' && DigitsAt(line, 1, 4) && line[5] == '.' && DigitsAt(line, 6, 2)
    && line[8] == '.' && DigitsAt(line, 9, 2) && line[11] == '-' && DigitsAt(line, 12, 2)
    && line[14] == '.' && DigitsAt(line, 15, 2) && line[17] == '.' && DigitsAt(line, 18, 2)
    && line[20] == ':' && DigitsAt(line, 21, 3) && line[24] == ']'
  }

  /**
   * `parseTimestamp`: groups 1..7 of the prefix become year, month, day, hour,
   * minute, second and millisecond (passed on as nanoseconds); without the
   * prefix, the time of parsing `now`.
   */
  function ParseTimestamp(line: string, now: Time): (t: Time)
    ensures !StampAt(line) ==> t == now
    ensures StampAt(line) ==> t.nanosecond % 1000000 == 0 && 0 <= t.nanosecond < 1000000000
    ensures StampAt(line) ==> 0 <= t.year < 10000 && 0 <= t.month < 100 && 0 <= t.day < 100
    ensures StampAt(line) ==> 0 <= t.hour < 100 && 0 <= t.minute < 100 && 0 <= t.second < 100
  {
    if StampAt(line) then
      StampFieldBound(line, 1, 4);
      StampFieldBound(line, 6, 2);
      StampFieldBound(line, 9, 2);
      StampFieldBound(line, 12, 2);
      StampFieldBound(line, 15, 2);
      StampFieldBound(line, 18, 2);
      StampFieldBound(line, 21, 3);
      Time(AtoiValue(line[1..5]), AtoiValue(line[6..8]), AtoiValue(line[9..11]),
           AtoiValue(line[12..14]), AtoiValue(line[15..17]), AtoiValue(line[18..20]),
           AtoiValue(line[21..24]) * 1000000)
    else now
  }

  /** Each digit field of the prefix holds a number below 10^width. */
  lemma StampFieldBound(line: string, at: nat, width: nat)
    requires DigitsAt(line, at, width)
    ensures AtoiValue(line[at..at + width]) < Pow10(width)
  {
    DigitsOfDigits(line[at..at + width]);
    ValueBound(line[at..at + width]);
  }

  /** A digit string of length k denotes a number below 10^k. */
  lemma {:induction false} ValueBound(s: string)
    requires AllDigits(s)
    ensures Value(s) < Pow10(|s|)
  {
    if s != [] {
      ValueBound(s[..|s| - 1]);
    }
  }

  predicate StampFits(t: Time) {
    && 0 <= t.year < 10000 && 0 <= t.month < 100 && 0 <= t.day < 100
    && 0 <= t.hour < 100 && 0 <= t.minute < 100 && 0 <= t.second < 100
    && 0 <= t.nanosecond < 1000000000 && t.nanosecond % 1000000 == 0
  }

  /** A separator followed by `n` written in `w` digits, then `rest`. */
  function Cell(sep: char, n: nat, w: nat, rest: string): (s: string)
    ensures |s| == 1 + w + |rest|
  {
    [sep] + Pad(n, w) + rest
  }

  /** A line that begins with the prefix the game writes for `t`, `[YYYY.MM.DD-hh.mm.ss:mmm]`, followed by `rest`. */
  function Stamped(t: Time, rest: string): string
    requires StampFits(t)
  {
    Cell('[', t.year, 4, Cell('.', t.month, 2, Cell('.', t.day, 2, Cell('-', t.hour, 2,
      Cell('.', t.minute, 2, Cell('.', t.second, 2, Cell(':', t.nanosecond / 1000000, 3, "]" + rest)))))))
  }

  lemma AtoiOfPad(n: nat, w: nat)
    requires n < Pow10(w)
    ensures AtoiValue(Pad(n, w)) == n
  {
    DigitsOfDigits(Pad(n, w));
    ValueOfPad(n, w);
  }

  /** A cell found at offset `at`: its separator, its digits and the value they read back as, then what follows. */
  lemma CellAt(line: string, at: nat, sep: char, n: nat, w: nat, rest: string)
    requires at <= |line| && line[at..] == Cell(sep, n, w, rest)
    requires n < Pow10(w)
    ensures line[at] == sep && DigitsAt(line, at + 1, w) && AtoiValue(line[at + 1..at + 1 + w]) == n
    ensures line[at + 1 + w..] == rest
  {
    var c := Cell(sep, n, w, rest);
    assert line[at] == c[0];
    assert line[at + 1..at + 1 + w] == c[1..1 + w] == Pad(n, w);
    assert line[at + 1 + w..] == c[1 + w..] == rest;
    AtoiOfPad(n, w);
  }

  /** Reading the timestamp prefix back gives the instant it was written from. */
  lemma StampRoundTrip(t: Time, rest: string, now: Time)
    requires StampFits(t)
    ensures ParseTimestamp(Stamped(t, rest), now) == t
  {
    var c7 := Cell(':', t.nanosecond / 1000000, 3, "]" + rest);
    var c6 := Cell('.', t.second, 2, c7);
    var c5 := Cell('.', t.minute, 2, c6);
    var c4 := Cell('-', t.hour, 2, c5);
    var c3 := Cell('.', t.day, 2, c4);
    var c2 := Cell('.', t.month, 2, c3);
    var line := Cell('[', t.year, 4, c2);
    assert line[0..] == line;
    CellAt(line, 0, '[', t.year, 4, c2);
    CellAt(line, 5, '.', t.month, 2, c3);
    CellAt(line, 8, '.', t.day, 2, c4);
    CellAt(line, 11, '-', t.hour, 2, c5);
    CellAt(line, 14, '.', t.minute, 2, c6);
    CellAt(line, 17, '.', t.second, 2, c7);
    CellAt(line, 20, ':', t.nanosecond / 1000000, 3, "]" + rest);
    assert line[24] == line[24..][0];
    assert StampAt(line);
  }

  // ---------------------------------------------------------------------------
  // Parse

  /** `parseBag`: capture groups 1..4 become PageID, SlotID, ConfigBaseID and Num. */
  function ParseBag(g: BagGroups): (b: BagEvent)
    ensures b.pageId >= 0 && b.slotId >= 0 && b.configBaseId >= 0 && b.num >= 0
  {
    BagEvent(AtoiValue(g.page), AtoiValue(g.slot), AtoiValue(g.config), AtoiValue(g.num))
  }

  /**
   * `Parse`: bag-init is tried first, then bag-mod, then the scene transition,
   * which yields MapEnd for the safe hub, MapStart for any other scene under
   * the maps directory, and nothing otherwise. An unrecognised line yields no
   * event; no line is an error.
   */
  function Parse(line: string, now: Time): (r: Option<Event>)
    ensures r.Some? ==> r.value.line == TrimEol(line) && r.value.time == ParseTimestamp(TrimEol(line), now)
    ensures r.Some? ==> IsNamed(r.value.kind)
    ensures r.Some? ==> (r.value.bag.Some? <==> r.value.kind == BagInit || r.value.kind == BagMod)
    ensures r.Some? && r.value.bag.Some? ==> r.value.bag.value.num >= 0 && r.value.bag.value.configBaseId >= 0
    ensures FindBag(TrimEol(line), InitTag).Some? ==>
              r.Some? && r.value.kind == BagInit && r.value.bag == Some(ParseBag(FindBag(TrimEol(line), InitTag).value))
    ensures r.Some? && r.value.kind == BagInit ==> FindBag(TrimEol(line), InitTag).Some?
    ensures r.Some? && r.value.kind == BagMod ==>
              FindBag(TrimEol(line), InitTag).None? && FindBag(TrimEol(line), ModTag).Some? &&
              r.value.bag == Some(ParseBag(FindBag(TrimEol(line), ModTag).value))
    ensures r.Some? && (r.value.kind == MapStart || r.value.kind == MapEnd) ==>
              && FindBag(TrimEol(line), InitTag).None? && FindBag(TrimEol(line), ModTag).None?
              && FindScene(TrimEol(line)).Some? && MapsDir <= FindScene(TrimEol(line)).value
              && (r.value.kind == MapEnd <==> FindScene(TrimEol(line)).value == RefugePath)
    ensures r.None? ==>
              && FindBag(TrimEol(line), InitTag).None? && FindBag(TrimEol(line), ModTag).None?
              && (FindScene(TrimEol(line)).None? || !(MapsDir <= FindScene(TrimEol(line)).value))
  {
    var l := TrimEol(line);
    var ts := ParseTimestamp(l, now);
    match FindBag(l, InitTag)
    case Some(g) => Some(Event(BagInit, ts, l, Some(ParseBag(g))))
    case None =>
      match FindBag(l, ModTag)
      case Some(g) => Some(Event(BagMod, ts, l, Some(ParseBag(g))))
      case None =>
        match FindScene(l)
        case Some(path) =>
          if MapsDir <= path then
            Some(Event(if path == RefugePath then MapEnd else MapStart, ts, l, None))
          else None
        case None => None
  }

  // ---------------------------------------------------------------------------
  // Lines as the game writes them

  /** Bracketed prefix groups such as `[2025.11.04-19.21.45:100][302][Foo]`. */
  function Brackets(groups: seq<string>): string {
    if groups == [] then [] else "[" + groups[0] + "]" + Brackets(groups[1..])
  }

  /** A group without brackets or newlines inside. */
  predicate Plain(g: string) {
    forall k :: 0 <= k < |g| ==> g[k] != '[' && g[k] != ']' && g[k] != '\n'
  }

  /** The ']' at `k`, if there is one and it is not the last character, is followed by '['. */
  predicate OpenAfterClose(b: string, k: int) {
    0 <= k && k + 1 < |b| && b[k] == ']' ==> b[k + 1] == '['
  }

  /** Every ']' of a bracket prefix but the last is followed by '['; the prefix holds no newline. */
  lemma {:induction false} BracketsShape(groups: seq<string>)
    requires forall n :: 0 <= n < |groups| ==> Plain(groups[n])
    ensures var b := Brackets(groups);
            && (groups != [] ==> |b| >= 2 && b[0] == '[' && b[|b| - 1] == ']')
            && (forall k :: 0 <= k < |b| ==> b[k] != '\n')
            && (forall k :: OpenAfterClose(b, k))
  {
    if groups != [] {
      var g := groups[0];
      var tail := Brackets(groups[1..]);
      BracketsShape(groups[1..]);
      var head := "[" + g + "]";
      var b := head + tail;
      assert Brackets(groups) == b;
      assert Plain(g);
      forall k
        ensures 0 <= k < |b| ==> b[k] != '\n'
        ensures OpenAfterClose(b, k)
      {
        if k <= 0 || |b| <= k {
        } else if k <= |g| {
          assert b[k] == g[k - 1];
        } else if k == |g| + 1 {
          if k < |b| - 1 {
            assert b[k + 1] == tail[0];
          }
        } else {
          assert b[k] == tail[k - |head|];
          assert OpenAfterClose(tail, k - |head|);
          if k < |b| - 1 {
            assert b[k + 1] == tail[k + 1 - |head|];
          }
        }
      }
    }
  }

  /** Nothing matches right after a ']' that is followed by '['. */
  lemma NoTailBeforeOpen(s: string, tag: string)
    requires |s| > 0 && s[0] == '['
    ensures BagTail(s, tag).None?
  {
    assert SpaceRun(s) == 0;
    assert Marker[0] == 'G';
  }

  /**
   * Extra bracket groups do not block a match: after one or more plain groups,
   * a matcher that never accepts text starting with '[' captures what it
   * captures in the text after the last group.
   */
  lemma BracketPrefix(groups: seq<string>, rest: string, tail: string -> Option<BagGroups>)
    requires |groups| >= 1 && forall n :: 0 <= n < |groups| ==> Plain(groups[n])
    requires forall s :: |s| > 0 && s[0] == '[' ==> tail(s).None?
    requires tail(rest).Some?
    ensures SearchOpen(Brackets(groups) + rest, tail, 0) == tail(rest)
  {
    var b := Brackets(groups);
    var line := b + rest;
    BracketsShape(groups);
    var last := |b| - 1;
    assert line[last + 1..] == rest;
    assert Clear(line, 1, last) by {
      forall k | 1 <= k < last ensures line[k] != '\n' {
        assert line[k] == b[k];
      }
    }
    assert MatchAt(line, tail, 0, last);
    forall k | 0 < k < last
      ensures !GoodClose(line, tail, k)
    {
      if line[k] == ']' {
        assert OpenAfterClose(b, k);
        assert line[k] == b[k] && line[k + 1] == b[k + 1];
        assert line[k + 1..][0] == '[';
      }
    }
    SearchOpenFirst(line, tail, 0, 0, last);
  }

  /** Bag lines behind one or more bracket groups are recognised by what follows the last group. */
  lemma BracketPrefixAccepted(groups: seq<string>, rest: string, tag: string)
    requires |groups| >= 1 && forall n :: 0 <= n < |groups| ==> Plain(groups[n])
    requires BagTail(rest, tag).Some?
    ensures FindBag(Brackets(groups) + rest, tag) == BagTail(rest, tag)
  {
    forall s | |s| > 0 && s[0] == '['
      ensures TailOf(tag)(s).None?
    {
      NoTailBeforeOpen(s, tag);
    }
    BracketPrefix(groups, rest, TailOf(tag));
  }

  lemma {:induction false} DigitRunOf(d: string, rest: string)
    requires AllDigits(d)
    requires rest == [] || !IsDigit(rest[0])
    ensures DigitRun(d + rest) == |d|
  {
    if d != [] {
      assert (d + rest)[1..] == d[1..] + rest;
      DigitRunOf(d[1..], rest);
    } else {
      assert d + rest == rest;
    }
  }

  /** `\s+<key>(\d+)` reads a single space, the key and the digits that follow. */
  lemma FieldReads(key: string, d: string, rest: string)
    requires |key| > 0 && !IsSpace(key[0])
    requires Captured(d)
    requires rest == [] || !IsDigit(rest[0])
    ensures Field(" " + key + d + rest, key) == Some((d, rest))
  {
    var s := " " + key + d + rest;
    assert s[1..] == key + d + rest;
    assert SpaceRun(s[1..]) == 0;
    assert SpaceRun(s) == 1;
    assert s[1 + |key|..] == d + rest;
    DigitRunOf(d, rest);
    assert (d + rest)[..|d|] == d;
    assert (d + rest)[|d|..] == rest;
  }

  predicate ValidBag(b: BagEvent) {
    b.pageId >= 0 && b.slotId >= 0 && b.configBaseId >= 0 && b.num >= 0
  }

  /** One `\s+<key>(\d+)` field as the game writes it, then `rest`. */
  function FieldText(key: string, n: nat, rest: string): (s: string)
    ensures |s| > 0 && s[0] == ' '
    ensures rest == [] ==> IsDigit(s[|s| - 1])
    ensures rest != [] ==> s[|s| - 1] == rest[|rest| - 1]
  {
    " " + key + Show(n) + rest
  }

  /** Fields with the given keys and numbers as the game writes them. */
  function FieldListText(keys: seq<string>, values: seq<nat>): (s: string)
    requires |keys| == |values|
    ensures s == [] || s[0] == ' '
    ensures s == [] <==> keys == []
    ensures s != [] ==> IsDigit(s[|s| - 1])
  {
    if keys == [] then [] else FieldText(keys[0], values[0], FieldListText(keys[1..], values[1..]))
  }

  /** The decimal form of each number. */
  function ShowAll(values: seq<nat>): (r: seq<string>)
    ensures |r| == |values| && forall n :: 0 <= n < |values| ==> r[n] == Show(values[n])
  {
    if values == [] then [] else [Show(values[0])] + ShowAll(values[1..])
  }

  /** Written fields are read back, key by key, as the decimal forms of their numbers. */
  lemma {:induction false} FieldListReads(keys: seq<string>, values: seq<nat>)
    requires |keys| == |values|
    requires forall n :: 0 <= n < |keys| ==> |keys[n]| > 0 && !IsSpace(keys[n][0])
    ensures FieldList(FieldListText(keys, values), keys) == Some(ShowAll(values))
  {
    if keys != [] {
      var rest := FieldListText(keys[1..], values[1..]);
      FieldTextReads(keys[0], values[0], rest);
      FieldListReads(keys[1..], values[1..]);
    }
  }

  function Numbers(b: BagEvent): seq<nat>
    requires ValidBag(b)
  {
    [b.pageId, b.slotId, b.configBaseId, b.num]
  }

  /** The four fields of a bag line as the game writes them. */
  function FieldsText(b: BagEvent): string
    requires ValidBag(b)
  {
    FieldListText(Keys, Numbers(b))
  }

  /** The part of a bag line that follows its bracketed prefix, as the game writes it. */
  function BagText(tag: string, b: BagEvent): string
    requires ValidBag(b)
  {
    Marker + " " + tag + FieldsText(b)
  }

  function ShownGroups(b: BagEvent): BagGroups
    requires ValidBag(b)
  {
    BagGroups(Show(b.pageId), Show(b.slotId), Show(b.configBaseId), Show(b.num))
  }

  /** The marker and the tag behind it are read up to the end of the tag. */
  lemma PreambleReads(tag: string, rest: string)
    requires tag == InitTag || tag == ModTag
    ensures Preamble(Marker + " " + tag + rest, tag) == Some(rest)
  {
    var s := Marker + " " + tag + rest;
    assert s[0] == 'G';
    var a := SkipSpace(s);
    assert a == s;
    var a' := a[|Marker|..];
    assert a' == " " + tag + rest;
    assert a'[1..] == tag + rest;
    assert SpaceRun(a'[1..]) == 0;
    assert (tag + rest)[|tag|..] == rest;
  }

  /** A written field is read back as the decimal form of its number. */
  lemma FieldTextReads(key: string, n: nat, rest: string)
    requires |key| > 0 && !IsSpace(key[0])
    requires rest == [] || rest[0] == ' '
    ensures Field(FieldText(key, n, rest), key) == Some((Show(n), rest))
  {
    FieldReads(key, Show(n), rest);
  }

  /** The capture groups of the written fields are the decimal forms of the four numbers. */
  lemma FieldsReads(b: BagEvent)
    requires ValidBag(b)
    ensures Fields(FieldsText(b)) == Some(ShownGroups(b))
  {
    assert forall n :: 0 <= n < |Keys| ==> |Keys[n]| > 0 && !IsSpace(Keys[n][0]);
    FieldListReads(Keys, Numbers(b));
  }

  /** The capture groups of a written bag line are the decimal forms of its four numbers. */
  lemma BagTextMatches(tag: string, b: BagEvent)
    requires tag == InitTag || tag == ModTag
    requires ValidBag(b)
    ensures BagTail(BagText(tag, b), tag) == Some(ShownGroups(b))
  {
    PreambleReads(tag, FieldsText(b));
    FieldsReads(b);
  }

  /** Decimal captures are read back as the numbers they were written from. */
  lemma ParseBagOfShown(b: BagEvent)
    requires ValidBag(b)
    ensures ParseBag(ShownGroups(b)) == b
  {
    AtoiOfShow(b.pageId);
    AtoiOfShow(b.slotId);
    AtoiOfShow(b.configBaseId);
    AtoiOfShow(b.num);
  }

  /** A written bag line ends in a digit of its Num field, never in a line ending. */
  lemma BagTextEnd(tag: string, b: BagEvent)
    requires ValidBag(b)
    ensures var t := BagText(tag, b); |t| > 0 && IsDigit(t[|t| - 1])
  {
    var f := FieldsText(b);
    var t := BagText(tag, b);
    assert t == (Marker + " " + tag) + f;
    assert t[|t| - 1] == f[|f| - 1];
  }

  /** A line `l` holding no bag match but a transition to `path`, followed by any line ending, parses by where `path` leads. */
  lemma ParseScene(l: string, eol: string, path: string, now: Time)
    requires l == [] || !IsEol(l[|l| - 1])
    requires forall k :: 0 <= k < |eol| ==> IsEol(eol[k])
    requires FindBag(l, InitTag).None? && FindBag(l, ModTag).None?
    requires FindScene(l) == Some(path)
    ensures Parse(l + eol, now) ==
            if MapsDir <= path then Some(Event(if path == RefugePath then MapEnd else MapStart, ParseTimestamp(l, now), l, None))
            else None
  {
    TrimEolAppended(l, eol);
  }

  /**
   * A line `l` in which the bag-init recogniser finds the decimal forms of
   * `b`'s numbers, followed by any line ending, parses to BagInit carrying
   * exactly `b`. `BagLineFound` and `BagLineEnd` show that every bag-init
   * line the game writes meets these conditions.
   */
  lemma ParseInit(l: string, eol: string, b: BagEvent, now: Time)
    requires l == [] || !IsEol(l[|l| - 1])
    requires forall k :: 0 <= k < |eol| ==> IsEol(eol[k])
    requires ValidBag(b) && FindBag(l, InitTag) == Some(ShownGroups(b))
    ensures Parse(l + eol, now) == Some(Event(BagInit, ParseTimestamp(l, now), l, Some(b)))
  {
    TrimEolAppended(l, eol);
    ParseBagOfShown(b);
  }

  /** A bag line as the game writes it, behind one or more bracket groups, is found with its numbers' decimal forms. */
  lemma BagLineFound(groups: seq<string>, tag: string, b: BagEvent)
    requires |groups| >= 1 && forall n :: 0 <= n < |groups| ==> Plain(groups[n])
    requires tag == InitTag || tag == ModTag
    requires ValidBag(b)
    ensures FindBag(Brackets(groups) + BagText(tag, b), tag) == Some(ShownGroups(b))
  {
    BagTextMatches(tag, b);
    BracketPrefixAccepted(groups, BagText(tag, b), tag);
  }

  /** A bag line as the game writes it ends in a digit, so trimming leaves it whole. */
  lemma BagLineEnd(groups: seq<string>, tag: string, b: BagEvent)
    requires ValidBag(b)
    ensures var l := Brackets(groups) + BagText(tag, b);
            |l| > 0 && IsDigit(l[|l| - 1])
  {
    var text := BagText(tag, b);
    var l := Brackets(groups) + text;
    BagTextEnd(tag, b);
    assert l[|l| - 1] == text[|text| - 1];
  }


  /**
   * A line `l` in which the bag-init recogniser finds nothing and the bag-modify
   * recogniser finds the decimal forms of `b`'s numbers, followed by any line
   * ending, parses to BagMod carrying exactly `b`.
   */
  lemma ParseMod(l: string, eol: string, b: BagEvent, now: Time)
    requires l == [] || !IsEol(l[|l| - 1])
    requires forall k :: 0 <= k < |eol| ==> IsEol(eol[k])
    requires ValidBag(b) && FindBag(l, InitTag).None? && FindBag(l, ModTag) == Some(ShownGroups(b))
    ensures Parse(l + eol, now) == Some(Event(BagMod, ParseTimestamp(l, now), l, Some(b)))
  {
    TrimEolAppended(l, eol);
    ParseBagOfShown(b);
  }

  /** A text without ']'. */
  predicate NoClose(s: string) {
    forall k :: 0 <= k < |s| ==> s[k] != ']'
  }

  /** Written fields hold no ']' when their keys hold none, since the numbers are digits. */
  lemma {:induction false} FieldListNoClose(keys: seq<string>, values: seq<nat>)
    requires |keys| == |values|
    requires forall n :: 0 <= n < |keys| ==> NoClose(keys[n])
    ensures NoClose(FieldListText(keys, values))
  {
    if keys != [] {
      var rest := FieldListText(keys[1..], values[1..]);
      FieldListNoClose(keys[1..], values[1..]);
      var key := keys[0];
      var d := Show(values[0]);
      var s := " " + key + d + rest;
      assert NoClose(key);
      forall k | 0 <= k < |s|
        ensures s[k] != ']'
      {
        if k == 0 {
        } else if k < 1 + |key| {
          assert s[k] == key[k - 1];
        } else if k < 1 + |key| + |d| {
          assert s[k] == d[k - 1 - |key|];
        } else {
          assert s[k] == rest[k - 1 - |key| - |d|];
        }
      }
      assert FieldListText(keys, values) == s;
    }
  }

  /** The only ']' of a written bag-modify line is the one that closes the marker's `[Game]`. */
  lemma ModTextCloses(b: BagEvent, p: int)
    requires ValidBag(b)
    requires 0 <= p < |BagText(ModTag, b)| && BagText(ModTag, b)[p] == ']'
    ensures p == |Marker| - 1
  {
    var t := BagText(ModTag, b);
    var rest := " " + ModTag + FieldsText(b);
    ModRestNoClose(b);
    assert t == Marker + rest;
    if p < |Marker| {
      assert Marker[p] == ']';
      MarkerCloses(p);
    }
  }

  /** The marker's only ']' is its last character. */
  lemma MarkerCloses(p: int)
    requires 0 <= p < |Marker| && Marker[p] == ']'
    ensures p == |Marker| - 1
  {
  }

  /** What follows the marker in a written bag-modify line holds no ']'. */
  lemma ModRestNoClose(b: BagEvent)
    requires ValidBag(b)
    ensures NoClose(" " + ModTag + FieldsText(b))
  {
    assert NoClose(PageLabel) && NoClose(SlotLabel) && NoClose(ConfigLabel) && NoClose(NumLabel);
    FieldListNoClose(Keys, Numbers(b));
    assert NoClose(" " + ModTag);
    NoCloseJoin(" " + ModTag, FieldsText(b));
  }

  lemma NoCloseJoin(a: string, c: string)
    requires NoClose(a) && NoClose(c)
    ensures NoClose(a + c)
  {
    forall k | 0 <= k < |a + c|
      ensures (a + c)[k] != ']'
    {
      if k >= |a| {
        assert (a + c)[k] == c[k - |a|];
      }
    }
  }

  /** Right after the marker of a written bag-modify line, the bag-init recogniser finds no marker. */
  lemma ModAfterMarker(b: BagEvent)
    requires ValidBag(b)
    ensures BagTail(BagText(ModTag, b)[|Marker|..], InitTag).None?
  {
    var t := BagText(ModTag, b);
    assert t[|Marker|] == ' ' && t[|Marker| + 1] == 'B';
    NoMarkerAfterSpace(t[|Marker|..], InitTag);
  }

  /** After a single space, a text that starts with a letter other than the marker's first holds no marker. */
  lemma NoMarkerAfterSpace(s: string, tag: string)
    requires |s| >= 2 && s[0] == ' ' && s[1] != Marker[0] && !IsSpace(s[1])
    ensures BagTail(s, tag).None?
  {
    assert SpaceRun(s[1..]) == 0;
    assert SkipSpace(s) == s[1..];
  }

  /** No bag recogniser accepts the text after a ']' of a bracket prefix other than its last. */
  lemma InnerCloseNoTail(groups: seq<string>, rest: string, tag: string, j: int)
    requires forall n :: 0 <= n < |groups| ==> Plain(groups[n])
    requires 0 <= j < |Brackets(groups)| - 1
    ensures !GoodClose(Brackets(groups) + rest, TailOf(tag), j)
  {
    var br := Brackets(groups);
    var line := br + rest;
    if line[j] == ']' {
      BracketsShape(groups);
      assert OpenAfterClose(br, j);
      assert line[j] == br[j] && line[j + 1] == br[j + 1];
      NoTailBeforeOpen(line[j + 1..], tag);
    }
  }

  /**
   * Behind bracket groups, a recogniser finds nothing when it accepts neither
   * the text after the prefix nor the text after any ']' in it.
   */
  lemma BracketPrefixRejected(groups: seq<string>, rest: string, tag: string)
    requires forall n :: 0 <= n < |groups| ==> Plain(groups[n])
    requires BagTail(rest, tag).None?
    requires forall p :: 0 <= p < |rest| && rest[p] == ']' ==> BagTail(rest[p + 1..], tag).None?
    ensures FindBag(Brackets(groups) + rest, tag).None?
  {
    var line := Brackets(groups) + rest;
    forall j
      ensures !GoodClose(line, TailOf(tag), j)
    {
      NoGoodClose(groups, rest, tag, j);
    }
    NoCloseNoMatch(line, TailOf(tag));
  }

  /** The search finds nothing in a line without a good ']'. */
  lemma NoCloseNoMatch(line: string, tail: string -> Option<BagGroups>)
    requires forall j :: !GoodClose(line, tail, j)
    ensures SearchOpen(line, tail, 0).None?
  {
    if SearchOpen(line, tail, 0).Some? {
      var i, j := SearchOpenSound(line, tail, 0);
    }
  }

  /** Behind plain groups, no ']' is followed by text the recogniser accepts when neither the text after the prefix nor the text after any ']' in it is. */
  lemma NoGoodClose(groups: seq<string>, rest: string, tag: string, j: int)
    requires forall n :: 0 <= n < |groups| ==> Plain(groups[n])
    requires BagTail(rest, tag).None?
    requires forall p :: 0 <= p < |rest| && rest[p] == ']' ==> BagTail(rest[p + 1..], tag).None?
    ensures !GoodClose(Brackets(groups) + rest, TailOf(tag), j)
  {
    var br := Brackets(groups);
    if j < |br| - 1 {
      if 0 <= j {
        InnerCloseNoTail(groups, rest, tag, j);
      }
    } else if j < |br| + |rest| {
      SuffixAt(br, rest, j);
    }
  }

  /** Past the end of `a` minus one, `a + c` from `j + 1` on is `c` from the matching place on. */
  lemma SuffixAt(a: string, c: string, j: int)
    requires |a| - 1 <= j < |a| + |c|
    ensures (a + c)[j + 1..] == c[j - |a| + 1..]
    ensures j >= |a| ==> (a + c)[j] == c[j - |a|]
  {
  }

  /** No ']' of a written bag-modify line is followed by what the bag-init recogniser accepts. */
  lemma ModTextNoInit(b: BagEvent)
    requires ValidBag(b)
    ensures var t := BagText(ModTag, b);
            forall p :: 0 <= p < |t| && t[p] == ']' ==> BagTail(t[p + 1..], InitTag).None?
  {
    var t := BagText(ModTag, b);
    forall p | 0 <= p < |t| && t[p] == ']'
      ensures BagTail(t[p + 1..], InitTag).None?
    {
      ModTextCloses(b, p);
      ModAfterMarker(b);
    }
  }

  /** The bag-init recogniser finds nothing in a bag-modify line as the game writes it, behind bracket groups. */
  lemma ModLineNoInit(groups: seq<string>, b: BagEvent)
    requires forall n :: 0 <= n < |groups| ==> Plain(groups[n])
    requires ValidBag(b)
    ensures FindBag(Brackets(groups) + BagText(ModTag, b), InitTag).None?
  {
    BagTextMatches(ModTag, b);
    TagsExclusive(BagText(ModTag, b));
    ModTextNoInit(b);
    BracketPrefixRejected(groups, BagText(ModTag, b), InitTag);
  }

  /** The search finds nothing in a text without '['. */
  lemma {:induction false} NoOpenNoMatch(line: string, tail: string -> Option<BagGroups>, i0: nat)
    requires i0 <= |line|
    requires forall k :: i0 <= k < |line| ==> line[k] != '['
    ensures SearchOpen(line, tail, i0).None?
    decreases |line| - i0
  {
    if i0 < |line| {
      NoOpenNoMatch(line, tail, i0 + 1);
    }
  }

  /** The capture reads a destination and stops at its closing quote. */
  lemma SceneCaptureOf(path: string, rest: string)
    requires MapsRoot <= path
    requires forall m :: 0 <= m < |path| ==> path[m] != '\''
    ensures SceneCapture(SceneNext + (path + ("'" + rest))) == Some(path)
  {
    var s := SceneNext + (path + ("'" + rest));
    var p := |SceneNext|;
    var q := p + |path|;
    assert s[p..] == path + ("'" + rest);
    assert SceneNext + MapsRoot <= s by {
      assert s[..p] == SceneNext;
      assert s[p..p + |MapsRoot|] == path[..|MapsRoot|];
    }
    assert s[q] == '\'';
    assert forall m :: p <= m < q ==> s[m] == path[m - p];
    assert QuoteFrom(s, p + |MapsRoot|) == Some(q);
    assert s[p..q] == path;
  }

  /**
   * The text a transition line carries before its destination: bracket
   * groups such as the timestamp, the marker, the transition head, and free
   * text such as `LastSceneName = …`.
   */
  function SceneBody(groups: seq<string>, filler: string): string {
    Brackets(groups) + Marker + " " + SceneHead + filler
  }

  /** A transition line as the game writes it: its body, the destination, and the destination's closing quote. */
  function SceneLine(groups: seq<string>, filler: string, path: string): string {
    SceneBody(groups, filler) + SceneNext + path + "'"
  }

  /** No `NextSceneName = World'` begins inside `s`, even one completed by a following `NextSceneName = World'`. */
  predicate NextFree(s: string) {
    forall m :: 0 <= m < |s| ==> !(SceneNext <= (s + SceneNext)[m..])
  }

  /** No capture starts inside a body that holds no `NextSceneName = World'` of its own. */
  lemma NextFreeNoCapture(body: string, tail: string, m: int)
    requires NextFree(body) && SceneNext <= tail && 0 <= m < |body|
    ensures ScenePathAt(body + tail, m).None?
  {
    var line := body + tail;
    var n := |SceneNext|;
    assert line[m..][..n] == (body + SceneNext)[m..][..n];
    assert (SceneNext + MapsRoot)[..n] == SceneNext;
  }

  /** The transition head of a written transition line, and the newline-free text after it. */
  lemma SceneHeadAt(groups: seq<string>, filler: string, rest: string)
    requires forall m :: 0 <= m < |filler| ==> filler[m] != '\n'
    ensures var line := SceneBody(groups, filler) + rest;
            var i := |Brackets(groups)| + |Marker| + 1;
            && i + |SceneHead| <= |SceneBody(groups, filler)|
            && SceneHead <= line[i..]
            && Clear(line, i + |SceneHead|, |SceneBody(groups, filler)|)
  {
    var line := SceneBody(groups, filler) + rest;
    var i := |Brackets(groups)| + |Marker| + 1;
    assert line == (Brackets(groups) + Marker + " ") + (SceneHead + filler + rest);
    assert line[i..] == SceneHead + filler + rest;
  }

  /**
   * Behind a body holding no `NextSceneName = World'`, a head whose run to
   * the end of the body crosses no newline makes the transition recogniser
   * capture the destination that follows.
   */
  lemma FindSceneBehind(body: string, i: nat, path: string)
    requires NextFree(body)
    requires MapsRoot <= path
    requires forall m :: 0 <= m < |path| ==> path[m] != '\''
    requires i + |SceneHead| <= |body|
    requires SceneHead <= (body + (SceneNext + path + "'"))[i..]
    requires Clear(body + (SceneNext + path + "'"), i + |SceneHead|, |body|)
    ensures FindScene(body + (SceneNext + path + "'")) == Some(path)
  {
    var line := body + (SceneNext + path + "'");
    var k := |body|;
    SceneCaptureAt(body, path);
    forall m | 0 <= m < k
      ensures ScenePathAt(line, m).None?
    {
      NextFreeNoCapture(body, SceneNext + path + "'", m);
    }
    FindSceneOnly(line, i, k);
  }

  /** Right after the body, the capture reads the destination up to its closing quote. */
  lemma SceneCaptureAt(body: string, path: string)
    requires MapsRoot <= path
    requires forall m :: 0 <= m < |path| ==> path[m] != '\''
    ensures ScenePathAt(body + (SceneNext + path + "'"), |body|) == Some(path)
  {
    SceneCaptureOf(path, []);
    assert (body + (SceneNext + path + "'"))[|body|..] == SceneNext + (path + ("'" + []));
  }

  /** The transition recogniser captures the destination of a written transition line. */
  lemma FindSceneLine(groups: seq<string>, filler: string, path: string)
    requires forall m :: 0 <= m < |filler| ==> filler[m] != '\n'
    requires NextFree(SceneBody(groups, filler))
    requires MapsRoot <= path
    requires forall m :: 0 <= m < |path| ==> path[m] != '\''
    ensures FindScene(SceneLine(groups, filler, path)) == Some(path)
  {
    var body := SceneBody(groups, filler);
    SceneHeadAt(groups, filler, SceneNext + path + "'");
    FindSceneBehind(body, |Brackets(groups)| + |Marker| + 1, path);
    Regroup(Brackets(groups), Marker, " ", SceneHead, filler, SceneNext, path, "'");
  }

  /** Behind the marker, a text without ']' leaves the marker's own ']' as the only one. */
  lemma MarkerThenCloses(after: string, p: int)
    requires NoClose(after)
    requires 0 <= p < |Marker + after| && (Marker + after)[p] == ']'
    ensures p == |Marker| - 1
  {
    if p < |Marker| {
      assert Marker[p] == ']';
      MarkerCloses(p);
    }
  }

  /** A bag recogniser rejects the marker followed by a space and a letter other than the tags' first. */
  lemma MarkerThenOther(after: string, tag: string)
    requires |after| >= 2 && after[0] == ' ' && after[1] == 'P'
    requires tag == InitTag || tag == ModTag
    ensures BagTail(Marker + after, tag).None?
  {
    var a := Marker + after;
    assert SpaceRun(a) == 0;
    assert a[|Marker|..] == after;
    assert SpaceRun(after[1..]) == 0;
    assert SkipSpace(after) == after[1..];
  }

  /** What follows the marker in a written transition line holds no ']'. */
  lemma SceneRestNoClose(filler: string, path: string)
    requires NoClose(filler) && NoClose(path)
    ensures NoClose(" " + SceneHead + filler + SceneNext + path + "'")
  {
    assert NoClose(" " + SceneHead) && NoClose(SceneNext) && NoClose("'");
    NoCloseJoin(" " + SceneHead, filler);
    NoCloseJoin(" " + SceneHead + filler, SceneNext);
    NoCloseJoin(" " + SceneHead + filler + SceneNext, path);
    NoCloseJoin(" " + SceneHead + filler + SceneNext + path, "'");
  }

  /** Neither bag recogniser finds anything in a written transition line. */
  lemma SceneLineNoBag(groups: seq<string>, filler: string, path: string, tag: string)
    requires forall n :: 0 <= n < |groups| ==> Plain(groups[n])
    requires NoClose(filler) && NoClose(path)
    requires tag == InitTag || tag == ModTag
    ensures FindBag(SceneLine(groups, filler, path), tag).None?
  {
    var after := " " + SceneHead + filler + SceneNext + path + "'";
    SceneRestNoClose(filler, path);
    assert after[0] == ' ' && after[1] == 'P';
    MarkerThenRejected(after, tag);
    BracketPrefixRejected(groups, Marker + after, tag);
    SceneLineSplit(groups, filler, path);
  }

  /** A written transition line is its bracket groups followed by the marker and the rest. */
  lemma SceneLineSplit(groups: seq<string>, filler: string, path: string)
    ensures SceneLine(groups, filler, path) == Brackets(groups) + (Marker + (" " + SceneHead + filler + SceneNext + path + "'"))
  {
    Regroup(Brackets(groups), Marker, " ", SceneHead, filler, SceneNext, path, "'");
  }

  /** Two ways of grouping the eight pieces of a transition line. */
  lemma Regroup(b: string, m: string, sp: string, h: string, f: string, n: string, p: string, q: string)
    ensures b + m + sp + h + f + n + p + q == b + (m + (sp + h + f + n + p + q))
    ensures b + m + sp + h + f + n + p + q == (b + m + sp + h + f) + (n + p + q)
  {
  }

  /** A bag recogniser accepts neither the marker followed by a space and 'P' nor the text after any ']' in it. */
  lemma MarkerThenRejected(after: string, tag: string)
    requires NoClose(after) && |after| >= 2 && after[0] == ' ' && after[1] == 'P'
    requires tag == InitTag || tag == ModTag
    ensures BagTail(Marker + after, tag).None?
    ensures forall p :: 0 <= p < |Marker + after| && (Marker + after)[p] == ']' ==> BagTail((Marker + after)[p + 1..], tag).None?
  {
    var rest := Marker + after;
    MarkerThenOther(after, tag);
    forall p | 0 <= p < |rest| && rest[p] == ']'
      ensures BagTail(rest[p + 1..], tag).None?
    {
      MarkerThenCloses(after, p);
      assert rest[p + 1..] == after;
      NoMarkerAfterSpace(after, tag);
    }
  }

  /** A line without '[' carries no timestamp and no bag match. */
  lemma NoOpenLine(l: string)
    requires forall k :: 0 <= k < |l| ==> l[k] != '['
    ensures !StampAt(l) && FindBag(l, InitTag).None? && FindBag(l, ModTag).None?
  {
    NoOpenNoMatch(l, TailOf(InitTag), 0);
    NoOpenNoMatch(l, TailOf(ModTag), 0);
  }

  /**
   * A transition line as the game writes it: it ends in its closing quote,
   * the transition recogniser captures its destination and neither bag
   * recogniser finds anything in it.
   */
  lemma SceneLineRead(groups: seq<string>, filler: string, path: string)
    requires forall n :: 0 <= n < |groups| ==> Plain(groups[n])
    requires NoClose(filler) && forall m :: 0 <= m < |filler| ==> filler[m] != '\n'
    requires NextFree(SceneBody(groups, filler))
    requires MapsRoot <= path && NoClose(path)
    requires forall m :: 0 <= m < |path| ==> path[m] != '\''
    ensures var l := SceneLine(groups, filler, path);
            && l[|l| - 1] == '\'' && FindScene(l) == Some(path)
            && FindBag(l, InitTag).None? && FindBag(l, ModTag).None?
  {
    FindSceneLine(groups, filler, path);
    SceneLineNoBag(groups, filler, path, InitTag);
    SceneLineNoBag(groups, filler, path, ModTag);
  }

  /**
   * A transition line as the game writes it, followed by any line ending,
   * parses to MapEnd when its destination is the safe hub and to MapStart for
   * any other destination under the maps directory, at the time its leading
   * timestamp gives.
   */
  lemma ParseSceneLine(groups: seq<string>, filler: string, path: string, eol: string, now: Time)
    requires forall n :: 0 <= n < |groups| ==> Plain(groups[n])
    requires NoClose(filler) && forall m :: 0 <= m < |filler| ==> filler[m] != '\n'
    requires NextFree(SceneBody(groups, filler))
    requires MapsDir <= path && NoClose(path)
    requires forall m :: 0 <= m < |path| ==> path[m] != '\''
    requires forall k :: 0 <= k < |eol| ==> IsEol(eol[k])
    ensures var l := SceneLine(groups, filler, path);
            Parse(l + eol, now) == Some(Event(if path == RefugePath then MapEnd else MapStart, ParseTimestamp(l, now), l, None))
  {
    var l := SceneLine(groups, filler, path);
    assert MapsRoot <= path by {
      assert MapsDir[..|MapsRoot|] == MapsRoot;
    }
    SceneLineRead(groups, filler, path);
    ParseScene(l, eol, path, now);
  }

  /** No text starts with both tags. */
  lemma TagPrefixesDiffer(b: string)
    ensures !(InitTag <= b && ModTag <= b)
  {
    if |b| > 8 {
      assert InitTag <= b ==> b[8] == 'I';
      assert ModTag <= b ==> b[8] == 'M';
    }
  }

  /** At one closing bracket, a line is never both an init line and a modify line. */
  lemma TagsExclusive(s: string)
    ensures !(BagTail(s, InitTag).Some? && BagTail(s, ModTag).Some?)
  {
    var a := SkipSpace(s);
    if Marker <= a {
      TagPrefixesDiffer(SkipSpace(a[|Marker|..]));
    }
  }
}
