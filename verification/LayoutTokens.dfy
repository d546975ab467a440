/** How MakeList cuts a layout string into tokens (ARP/LayerManager.cpp).
    A C string is the sequence of its characters before the terminating NUL, and a
    char pointer into it is an offset. */
module LayoutTokens {

  // The characters that "%s" skips and stops at: space, \t, \n, \v, \f, \r.
  predicate Blank(c: char) {
    c == ' ' || 9 as char <= c <= 13 as char
  }

  predicate AllBlank(s: string, from: int, to: int) {
    0 <= from && to <= |s| && forall x :: from <= x < to ==> Blank(s[x])
  }

  predicate NoBlank(s: string, from: int, to: int) {
    0 <= from && to <= |s| && forall x :: from <= x < to ==> !Blank(s[x])
  }

  predicate SpaceFree(s: string, from: int, to: int) {
    0 <= from && to <= |s| && forall x :: from <= x < to ==> s[x] != ' '
  }

  // ---- The library calls ----

  function SkipBlanks(s: string, p: nat): (i: nat)
    requires p <= |s|
    ensures p <= i <= |s|
    decreases |s| - p
  {
    if p < |s| && Blank(s[p]) then SkipBlanks(s, p + 1) else p
  }

  lemma {:induction false} SkipsBlanks(s: string, p: nat)
    requires p <= |s|
    ensures var i := SkipBlanks(s, p); AllBlank(s, p, i) && (i < |s| ==> !Blank(s[i]))
    decreases |s| - p
  {
    if p < |s| && Blank(s[p]) {
      SkipsBlanks(s, p + 1);
    }
  }

  function WordFrom(s: string, i: nat): string
    requires i <= |s|
    decreases |s| - i
  {
    if i < |s| && !Blank(s[i]) then [s[i]] + WordFrom(s, i + 1) else ""
  }

  // What sscanf("%s") stores when it reads at offset p; "" stands for "stores nothing".
  function Scan(s: string, p: nat): string
    requires p <= |s|
  {
    WordFrom(s, SkipBlanks(s, p))
  }

  // strchr: the first c at or after p; |s| stands for NULL.
  function StrChr(s: string, p: nat, c: char): (i: nat)
    requires p <= |s|
    ensures p <= i <= |s|
    decreases |s| - p
  {
    if p < |s| && s[p] != c then StrChr(s, p + 1, c) else p
  }

  lemma {:induction false} FindsSpace(s: string, p: nat)
    requires p <= |s|
    ensures var i := StrChr(s, p, ' '); SpaceFree(s, p, i) && (i < |s| ==> s[i] == ' ')
    decreases |s| - p
  {
    if p < |s| && s[p] != ' ' {
      FindsSpace(s, p + 1);
    }
  }

  // The offsets MakeList scans at, beginning with p: one for every field that a ' ' ends.
  function Starts(s: string, p: nat): (ps: seq<nat>)
    requires p <= |s|
    ensures |ps| > 0 && ps[0] == p
    ensures forall k :: 0 <= k < |ps| ==> ps[k] <= |s|
    decreases |s| - p
  {
    var i := StrChr(s, p, ' ');
    [p] + if i == |s| then [] else Starts(s, i + 1)
  }

  // The tokens MakeList appends when it starts to scan at p.
  function TokensFrom(s: string, p: nat): seq<string>
    requires p <= |s|
    decreases |s| - p
  {
    var i := StrChr(s, p, ' ');
    [Scan(s, p)] + if i == |s| then [] else TokensFrom(s, i + 1)
  }

  lemma TokensUnfold(s: string, p: nat, rest: seq<string>)
    requires p <= |s|
    requires var i := StrChr(s, p, ' '); rest == if i == |s| then [] else TokensFrom(s, i + 1)
    ensures TokensFrom(s, p) == [Scan(s, p)] + rest
  {
  }

  function Tokens(s: string): seq<string> {
    TokensFrom(s, 0)
  }

  // ---- Which tokens these are ----

  function Spaces(s: string, from: nat, to: nat): nat
    requires to <= |s|
    decreases |s| - from
  {
    if from >= to then 0 else (if s[from] == ' ' then 1 else 0) + Spaces(s, from + 1, to)
  }

  // s[i..j] is the first maximal run of non-blank characters that starts at or after p.
  ghost predicate FirstRun(s: string, p: nat, i: nat, j: nat) {
    i < j && AllBlank(s, p, i) && NoBlank(s, i, j) && p <= i && (j == |s| || Blank(s[j]))
  }

  lemma {:induction false} SpacesPast(s: string, p: nat, i: nat, to: nat)
    requires p <= i && SpaceFree(s, p, i) && to <= |s|
    ensures Spaces(s, p, to) == Spaces(s, i, to)
    decreases i - p
  {
    if p < i {
      SpacesPast(s, p + 1, i, to);
    }
  }

  lemma {:induction false} StartCount(s: string, p: nat)
    requires p <= |s|
    ensures |Starts(s, p)| == Spaces(s, p, |s|) + 1
    decreases |s| - p
  {
    var i := StrChr(s, p, ' ');
    FindsSpace(s, p);
    SpacesPast(s, p, i, |s|);
    if i < |s| {
      StartCount(s, i + 1);
    }
  }

  lemma {:induction false} StartOfField(s: string, p: nat, f: nat)
    requires p <= f <= |s| && (p == f || s[f - 1] == ' ')
    ensures Spaces(s, p, f) < |Starts(s, p)| && Starts(s, p)[Spaces(s, p, f)] == f
    decreases f - p
  {
    if p < f {
      var i := StrChr(s, p, ' ');
      FindsSpace(s, p);
      assert i < f;
      SpacesPast(s, p, i, f);
      StartOfField(s, i + 1, f);
    }
  }

  ghost predicate ScannedAtStart(s: string, p: nat, k: nat)
    requires p <= |s|
  {
    |TokensFrom(s, p)| == |Starts(s, p)| && (k < |Starts(s, p)| ==> TokensFrom(s, p)[k] == Scan(s, Starts(s, p)[k]))
  }

  lemma ScannedAtLast(s: string, p: nat, k: nat)
    requires p <= |s| && StrChr(s, p, ' ') == |s|
    ensures ScannedAtStart(s, p, k)
  {
    assert Starts(s, p) == [p] && TokensFrom(s, p) == [Scan(s, p)];
  }

  lemma ScannedBefore(s: string, p: nat, i: nat, k: nat)
    requires p <= i < |s| && StrChr(s, p, ' ') == i && ScannedAtStart(s, i + 1, if k > 0 then k - 1 else 0)
    ensures ScannedAtStart(s, p, k)
  {
    TokensUnfold(s, p, TokensFrom(s, i + 1));
    assert Starts(s, p) == [p] + Starts(s, i + 1);
  }

  lemma {:induction false} TokenAtStart(s: string, p: nat, k: nat)
    requires p <= |s|
    ensures ScannedAtStart(s, p, k)
    decreases |s| - p
  {
    var i := StrChr(s, p, ' ');
    if i < |s| {
      TokenAtStart(s, i + 1, if k > 0 then k - 1 else 0);
      ScannedBefore(s, p, i, k);
    } else {
      ScannedAtLast(s, p, k);
    }
  }

  // s[i..j] is a run that ends at a blank or at the end.
  predicate RunAt(s: string, i: nat, j: nat) {
    i <= j <= |s| && NoBlank(s, i, j) && (j == |s| || Blank(s[j]))
  }

  lemma RunGrows(s: string, i: nat, j: nat)
    requires i < |s| && !Blank(s[i]) && RunAt(s, i + 1, j)
    ensures RunAt(s, i, j) && s[i..j] == [s[i]] + s[i + 1..j]
  {
  }

  lemma {:induction false} WordIsMaximal(s: string, i: nat) returns (j: nat)
    requires i <= |s|
    ensures RunAt(s, i, j) && WordFrom(s, i) == s[i..j]
    decreases |s| - i
  {
    if i < |s| && !Blank(s[i]) {
      j := WordIsMaximal(s, i + 1);
      RunGrows(s, i, j);
    } else {
      j := i;
    }
  }

  /** MakeList appends one token more than there are spaces. For a field that starts at f
      (the beginning of the text, or just after a space) the token with the index "spaces
      before f" is the first non-blank run at or after f; it is missing only when nothing
      but blanks is left. */
  lemma TokensAreFieldRuns(s: string, f: nat) returns (i: nat, j: nat)
    requires f <= |s| && (f == 0 || s[f - 1] == ' ')
    ensures |Tokens(s)| == Spaces(s, 0, |s|) + 1
    ensures Spaces(s, 0, f) < |Tokens(s)|
    ensures var t := Tokens(s)[Spaces(s, 0, f)];
            if AllBlank(s, f, |s|) then t == "" else FirstRun(s, f, i, j) && t == s[i..j]
  {
    StartCount(s, 0);
    StartOfField(s, 0, f);
    TokenAtStart(s, 0, Spaces(s, 0, f));
    i := SkipBlanks(s, f);
    SkipsBlanks(s, f);
    j := WordIsMaximal(s, i);
    if i < |s| {
      assert i < j;
    }
  }

  predicate NoneEmpty(ts: seq<string>) {
    forall k :: 0 <= k < |ts| ==> ts[k] != ""
  }

  // A non-blank character at x with no space after it.
  ghost predicate LastWord(s: string, x: int) {
    0 <= x < |s| && !Blank(s[x]) && SpaceFree(s, x, |s|)
  }

  lemma NoneEmptyCons(t: string, ts: seq<string>)
    ensures NoneEmpty([t] + ts) <==> t != "" && NoneEmpty(ts)
  {
    assert forall k :: 0 <= k < |ts| ==> ts[k] == ([t] + ts)[k + 1];
    assert ([t] + ts)[0] == t;
  }

  // A non-blank character at or after p with no space after it.
  ghost predicate HasLastWord(s: string, p: nat) {
    exists x :: p <= x && LastWord(s, x)
  }

  lemma LastScan(s: string, p: nat)
    requires p <= |s| && SpaceFree(s, p, |s|)
    ensures NoneEmpty([Scan(s, p)] + []) <==> HasLastWord(s, p)
  {
    NoneEmptyCons(Scan(s, p), []);
    var a := SkipBlanks(s, p);
    SkipsBlanks(s, p);
    if a < |s| {
      assert LastWord(s, a);
      assert Scan(s, p) != "";
    }
  }

  lemma LaterScan(s: string, p: nat, i: nat, rest: seq<string>)
    requires p <= i < |s| && s[i] == ' ' && (NoneEmpty(rest) <==> HasLastWord(s, i + 1))
    ensures NoneEmpty([Scan(s, p)] + rest) <==> HasLastWord(s, p)
  {
    NoneEmptyCons(Scan(s, p), rest);
    SkipsBlanks(s, p);
    if x :| p <= x && LastWord(s, x) {
      assert x > i;
      assert !Blank(s[SkipBlanks(s, p)]);
    }
  }

  lemma {:induction false} ScansSucceedFrom(s: string, p: nat)
    requires p <= |s|
    ensures NoneEmpty(TokensFrom(s, p)) <==> HasLastWord(s, p)
    decreases |s| - p
  {
    var i := StrChr(s, p, ' ');
    FindsSpace(s, p);
    if i == |s| {
      TokensUnfold(s, p, []);
      LastScan(s, p);
    } else {
      TokensUnfold(s, p, TokensFrom(s, i + 1));
      ScansSucceedFrom(s, i + 1);
      LaterScan(s, p, i, TokensFrom(s, i + 1));
    }
  }

  /** Every scan finds a token exactly when some non-blank character has no space after it. */
  lemma EveryScanSucceeds(s: string)
    ensures NoneEmpty(Tokens(s)) <==> exists x :: LastWord(s, x)
  {
    ScansSucceedFrom(s, 0);
    if x :| LastWord(s, x) {
      assert 0 <= x && LastWord(s, x);
    }
  }

  // No token is longer than the text.
  lemma ScanFits(s: string, p: nat)
    requires p <= |s|
    ensures |Scan(s, p)| <= |s|
  {
    var j := WordIsMaximal(s, SkipBlanks(s, p));
  }

  lemma TokenFits(s: string, k: nat)
    requires k < |Tokens(s)|
    ensures |Tokens(s)[k]| <= |s|
  {
    TokenAtStart(s, 0, k);
    ScanFits(s, Starts(s, 0)[k]);
  }

  // ---- Printing and re-reading ----

  predicate Word(t: string) {
    t != "" && NoBlank(t, 0, |t|)
  }

  // A layout text: words with one space between them, and extra spaces before any of them.
  datatype Layout = Last(word: string) | Then(word: string, rest: Layout) | Space(rest: Layout)

  function Text(l: Layout): string {
    match l
    case Last(w) => w
    case Then(w, r) => w + (" " + Text(r))
    case Space(r) => " " + Text(r)
  }

  function Words(l: Layout): (ws: seq<string>)
    ensures |ws| > 0
  {
    match l
    case Last(w) => [w]
    case Then(w, r) => [w] + Words(r)
    case Space(r) => Words(r)
  }

  predicate WellSpelled(l: Layout) {
    match l
    case Last(w) => Word(w)
    case Then(w, r) => Word(w) && WellSpelled(r)
    case Space(r) => WellSpelled(r)
  }

  // Each word, once more than there are extra spaces before it.
  function Repeated(l: Layout): (ws: seq<string>)
    ensures |ws| > 0 && ws[0] == Words(l)[0]
  {
    match l
    case Last(w) => [w]
    case Then(w, r) => [w] + Repeated(r)
    case Space(r) => [Words(r)[0]] + Repeated(r)
  }

  // The layout with single spaces only.
  function SingleSpaced(ws: seq<string>): (l: Layout)
    requires |ws| > 0
    ensures Words(l) == ws && Repeated(l) == ws
    ensures (forall k :: 0 <= k < |ws| ==> Word(ws[k])) ==> WellSpelled(l)
  {
    if |ws| == 1 then Last(ws[0]) else Then(ws[0], SingleSpaced(ws[1..]))
  }

  lemma {:induction false} StrChrIs(s: string, p: nat, i: nat)
    requires p <= i && SpaceFree(s, p, i) && (i < |s| ==> s[i] == ' ')
    ensures StrChr(s, p, ' ') == i
    decreases i - p
  {
    if p < i {
      StrChrIs(s, p + 1, i);
    }
  }

  ghost predicate WordAt(s: string, q: nat, t: string) {
    && q + |t| <= |s|
    && (forall x :: q <= x < q + |t| ==> s[x] == t[x - q] && !Blank(s[x]))
    && (q + |t| < |s| ==> s[q + |t|] == ' ')
  }

  lemma {:induction false} WordFromIs(s: string, q: nat, t: string)
    requires WordAt(s, q, t)
    ensures WordFrom(s, q) == t
    decreases |t|
  {
    if t != "" {
      WordFromIs(s, q + 1, t[1..]);
    }
  }

  lemma {:induction false} SkipBlanksIs(s: string, p: nat, i: nat)
    requires p <= i < |s| && AllBlank(s, p, i) && !Blank(s[i])
    ensures SkipBlanks(s, p) == i
    decreases i - p
  {
    if p < i {
      SkipBlanksIs(s, p + 1, i);
    }
  }

  ghost predicate TextAt(s: string, p: nat, l: Layout)
    decreases l
  {
    match l
    case Last(w) => WordAt(s, p, w) && p + |w| == |s|
    case Then(w, r) => WordAt(s, p, w) && p + |w| < |s| && TextAt(s, p + |w| + 1, r)
    case Space(r) => p < |s| && s[p] == ' ' && TextAt(s, p + 1, r)
  }

  lemma WordIsAt(s: string, p: nat, w: string, tail: string)
    requires p <= |s| && s[p..] == w + tail && NoBlank(w, 0, |w|)
    requires tail == "" || tail[0] == ' '
    ensures WordAt(s, p, w) && s[p + |w|..] == tail
  {
    assert |s| == p + |w| + |tail|;
    forall x | p <= x < p + |w|
      ensures s[x] == w[x - p]
    {
      assert s[p..][x - p] == w[x - p];
    }
    assert s[p + |w|..] == s[p..][|w|..] == tail;
  }

  lemma {:induction false} TextIsAt(s: string, p: nat, l: Layout)
    requires WellSpelled(l) && p <= |s| && s[p..] == Text(l)
    ensures TextAt(s, p, l)
    decreases l
  {
    match l
    case Last(w) =>
      assert s[p..] == w + "";
      WordIsAt(s, p, w, "");
    case Then(w, r) =>
      WordIsAt(s, p, w, " " + Text(r));
      assert s[p + |w|..][1..] == s[p + |w| + 1..] == Text(r);
      TextIsAt(s, p + |w| + 1, r);
    case Space(r) =>
      WordIsAt(s, p, "", " " + Text(r));
      assert s[p..][0] == s[p];
      assert s[p..][1..] == s[p + 1..] == Text(r);
      TextIsAt(s, p + 1, r);
  }

  lemma {:induction false} TextStart(s: string, p: nat, l: Layout)
    requires WellSpelled(l) && TextAt(s, p, l)
    ensures p < |s| && Scan(s, p) == Words(l)[0]
    decreases l
  {
    match l
    case Last(w) => WordFromIs(s, p, w);
    case Then(w, r) => WordFromIs(s, p, w);
    case Space(r) => TextStart(s, p + 1, r);
  }

  lemma ScanIs(s: string, p: nat, w: string)
    requires w != "" && WordAt(s, p, w)
    ensures Scan(s, p) == w && StrChr(s, p, ' ') == p + |w|
  {
    assert !Blank(s[p]);
    WordFromIs(s, p, w);
    StrChrIs(s, p, p + |w|);
  }

  lemma TokensAfterWord(s: string, p: nat, w: string)
    requires w != "" && WordAt(s, p, w) && p + |w| < |s|
    ensures TokensFrom(s, p) == [w] + TokensFrom(s, p + |w| + 1)
  {
    ScanIs(s, p, w);
  }

  lemma TokensOfLastWord(s: string, p: nat, w: string)
    requires w != "" && WordAt(s, p, w) && p + |w| == |s|
    ensures TokensFrom(s, p) == [w]
  {
    ScanIs(s, p, w);
  }

  lemma TokensAfterSpace(s: string, p: nat, w: string)
    requires p < |s| && s[p] == ' ' && Scan(s, p) == w
    ensures TokensFrom(s, p) == [w] + TokensFrom(s, p + 1)
  {
  }

  lemma TokensOfThen(s: string, p: nat, w: string, r: Layout)
    requires w != "" && WordAt(s, p, w) && p + |w| < |s| && TokensFrom(s, p + |w| + 1) == Repeated(r)
    ensures TokensFrom(s, p) == Repeated(Then(w, r))
  {
    TokensAfterWord(s, p, w);
  }

  lemma TokensOfSpace(s: string, p: nat, r: Layout)
    requires WellSpelled(r) && TextAt(s, p, Space(r)) && TokensFrom(s, p + 1) == Repeated(r)
    ensures TokensFrom(s, p) == Repeated(Space(r))
  {
    TextStart(s, p, Space(r));
    TokensAfterSpace(s, p, Words(r)[0]);
  }

  lemma {:induction false} TokensOfText(s: string, p: nat, l: Layout)
    requires WellSpelled(l) && TextAt(s, p, l) && p <= |s|
    ensures TokensFrom(s, p) == Repeated(l)
    decreases l
  {
    match l
    case Last(w) =>
      TokensOfLastWord(s, p, w);
    case Then(w, r) =>
      TokensOfText(s, p + |w| + 1, r);
      TokensOfThen(s, p, w, r);
    case Space(r) =>
      TokensOfText(s, p + 1, r);
      TokensOfSpace(s, p, r);
  }

  /** Reading back a layout text: a single-spaced one is split exactly into its words, and
      each extra space repeats the word that follows it. */
  lemma ReadingBack(l: Layout)
    requires WellSpelled(l)
    ensures Tokens(Text(l)) == Repeated(l)
  {
    assert Text(l)[0..] == Text(l);
    TextIsAt(Text(l), 0, l);
    TokensOfText(Text(l), 0, l);
  }
}
