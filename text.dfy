/**
 * The JavaScript string operations the core relies on: the whitespace class
 * shared by `String.prototype.trim` and the regular-expression escape `\s`,
 * `trim`, `replace(/\s+/g, ' ')`, `split` on a run of separators, case
 * folding of ASCII letters and `includes`.
 */
module JsText {

  /** The characters `trim` removes and `\s` matches (WhiteSpace and LineTerminator). */
  predicate IsWhitespace(c: char) {
    ('\t' <= c <= '\r') || c == ' ' || c == '\U{A0}' || c == '\U{1680}'
    || ('\U{2000}' <= c <= '\U{200A}') || c == '\U{2028}' || c == '\U{2029}' || c == '\U{202F}'
    || c == '\U{205F}' || c == '\U{3000}' || c == '\U{FEFF}'
  }

  predicate IsBlank(s: string) {
    forall i | 0 <= i < |s| :: IsWhitespace(s[i])
  }

  /** The first index from `i` on whose character does not satisfy `p`, or `|s|`. */
  function SkipFrom(s: string, i: nat, p: char -> bool): (j: nat)
    requires i <= |s|
    ensures i <= j <= |s|
    ensures forall k | i <= k < j :: p(s[k])
    ensures j < |s| ==> !p(s[j])
    decreases |s| - i
  {
    if i < |s| && p(s[i]) then SkipFrom(s, i + 1, p) else i
  }

  /** The first index from `i` on whose character satisfies `p`, or `|s|`. */
  function FindFrom(s: string, i: nat, p: char -> bool): (j: nat)
    requires i <= |s|
    ensures i <= j <= |s|
    ensures forall k | i <= k < j :: !p(s[k])
    ensures j < |s| ==> p(s[j])
    decreases |s| - i
  {
    if i < |s| && !p(s[i]) then FindFrom(s, i + 1, p) else i
  }

  /** The index just past the last non-whitespace character before `j`, or 0. */
  function TextEnd(s: string, j: nat): (e: nat)
    requires j <= |s|
    ensures e <= j
    ensures forall k | e <= k < j :: IsWhitespace(s[k])
    ensures e > 0 ==> !IsWhitespace(s[e - 1])
  {
    if j > 0 && IsWhitespace(s[j - 1]) then TextEnd(s, j - 1) else j
  }

  /** The number of whitespace characters `s` starts with. */
  function LeadingWhitespace(s: string): nat {
    SkipFrom(s, 0, IsWhitespace)
  }

  /** `s.trim()`: what is left after removing leading and trailing whitespace. */
  function Trim(s: string): (r: string)
    ensures r == [] || (!IsWhitespace(r[0]) && !IsWhitespace(r[|r| - 1]))
    ensures r == [] <==> IsBlank(s)
  {
    var a := LeadingWhitespace(s);
    if a == |s| then
      []
    else
      var e := TextEnd(s, |s|);
      assert a < e;
      s[a..e]
  }

  /** Trimming takes a slice of the input and removes only whitespace around it. */
  lemma TrimSlice(s: string)
    ensures LeadingWhitespace(s) + |Trim(s)| <= |s|
    ensures Trim(s) == s[LeadingWhitespace(s)..LeadingWhitespace(s) + |Trim(s)|]
    ensures IsBlank(s[..LeadingWhitespace(s)]) && IsBlank(s[LeadingWhitespace(s) + |Trim(s)|..])
  {
    var a := LeadingWhitespace(s);
    BlankSlice(s, 0, a);
    assert s[..a] == s[0..a];
    if a < |s| {
      var e := TextEnd(s, |s|);
      BlankSlice(s, e, |s|);
      assert s[e..] == s[e..|s|];
    }
  }

  lemma BlankSlice(s: string, i: nat, j: nat)
    requires i <= j <= |s|
    requires forall k | i <= k < j :: IsWhitespace(s[k])
    ensures IsBlank(s[i..j])
  {
    forall k | 0 <= k < j - i ensures IsWhitespace(s[i..j][k]) {
      assert s[i..j][k] == s[i + k];
    }
  }

  /** No whitespace character other than a single space, and never two in a row. */
  predicate SingleSpaced(s: string) {
    forall i | 0 <= i < |s| :: SpacedAt(s, i)
  }

  predicate SpacedAt(s: string, i: nat)
    requires i < |s|
  {
    IsWhitespace(s[i]) ==> s[i] == ' ' && (i + 1 < |s| ==> !IsWhitespace(s[i + 1]))
  }

  /** The shape `replace(/\s+/g, ' ').trim()` produces. */
  predicate Normalized(s: string) {
    SingleSpaced(s) && (s == [] || (!IsWhitespace(s[0]) && !IsWhitespace(s[|s| - 1])))
  }

  /** The characters of `s` that do not satisfy `p`, in order. */
  function Keep(s: string, p: char -> bool): (r: string)
    ensures |r| <= |s|
  {
    if s == [] then [] else (if p(s[0]) then [] else [s[0]]) + Keep(s[1..], p)
  }

  function NonWhitespace(s: string): string {
    Keep(s, IsWhitespace)
  }

  /**
   * `s.replace(/\s+/g, ' ')`: every maximal run of whitespace becomes one space,
   * every other character is copied.
   */
  function CollapseWhitespace(s: string): (r: string)
    ensures SingleSpaced(r)
    ensures r != [] && IsWhitespace(r[0]) ==> s != [] && IsWhitespace(s[0])
    ensures NonWhitespace(r) == NonWhitespace(s)
    decreases |s|
  {
    if s == [] then []
    else if IsWhitespace(s[0]) then
      var n := LeadingWhitespace(s);
      var tail := CollapseWhitespace(s[n..]);
      ConsSpaced(' ', tail);
      KeepBlankPrefix(s, n, IsWhitespace);
      assert NonWhitespace([' ']) == [];
      KeepAppend([' '], tail, IsWhitespace);
      [' '] + tail
    else
      var tail := CollapseWhitespace(s[1..]);
      ConsSpaced(s[0], tail);
      KeepAppend([s[0]], tail, IsWhitespace);
      assert s == [s[0]] + s[1..];
      KeepAppend([s[0]], s[1..], IsWhitespace);
      [s[0]] + tail
  }

  lemma ConsSpaced(c: char, t: string)
    requires SingleSpaced(t)
    requires IsWhitespace(c) ==> c == ' ' && (t == [] || !IsWhitespace(t[0]))
    ensures SingleSpaced([c] + t)
  {
    var s := [c] + t;
    forall i | 0 <= i < |s| ensures SpacedAt(s, i) {
      if i > 0 {
        assert SpacedAt(t, i - 1);
        assert s[i] == t[i - 1];
        if i + 1 < |s| { assert s[i + 1] == t[i]; }
      }
    }
  }

  /**
   * `speech.replace(/\s+/g, ' ').trim()`: the pieces between whitespace runs,
   * joined by single spaces, with the space left by a leading or trailing run trimmed.
   */
  function Normalize(s: string): (r: string)
    ensures r == Trim(Join(SplitRuns(s, IsWhitespace), " "))
  {
    CollapseIsJoinOfWords(s);
    Trim(CollapseWhitespace(s))
  }

  lemma {:induction false} KeepAppend(a: string, b: string, p: char -> bool)
    ensures Keep(a + b, p) == Keep(a, p) + Keep(b, p)
  {
    if a == [] {
      assert a + b == b;
    } else {
      assert (a + b)[0] == a[0];
      assert (a + b)[1..] == a[1..] + b;
      KeepAppend(a[1..], b, p);
    }
  }

  lemma {:induction false} KeepAllSatisfying(s: string, p: char -> bool)
    requires forall i | 0 <= i < |s| :: p(s[i])
    ensures Keep(s, p) == []
  {
    if s != [] { KeepAllSatisfying(s[1..], p); }
  }

  lemma {:induction false} KeepNoneSatisfying(s: string, p: char -> bool)
    requires forall i | 0 <= i < |s| :: !p(s[i])
    ensures Keep(s, p) == s
  {
    if s != [] { KeepNoneSatisfying(s[1..], p); }
  }

  /** Dropping a prefix made only of characters satisfying `p` keeps the same kept characters. */
  lemma KeepBlankPrefix(s: string, k: nat, p: char -> bool)
    requires k <= |s|
    requires forall i | 0 <= i < k :: p(s[i])
    ensures Keep(s, p) == Keep(s[k..], p)
  {
    var head := s[..k];
    assert forall i | 0 <= i < k :: head[i] == s[i];
    KeepAllSatisfying(head, p);
    assert s == head + s[k..];
    KeepAppend(head, s[k..], p);
  }

  lemma SliceSingleSpaced(s: string, i: nat, j: nat)
    requires i <= j <= |s| && SingleSpaced(s)
    ensures SingleSpaced(s[i..j])
  {
    forall k | 0 <= k < j - i ensures SpacedAt(s[i..j], k) {
      assert SpacedAt(s, i + k);
      assert s[i..j][k] == s[i + k];
      if k + 1 < j - i { assert s[i..j][k + 1] == s[i + k + 1]; }
    }
  }

  lemma TrimSingleSpaced(c: string)
    requires SingleSpaced(c)
    ensures SingleSpaced(Trim(c))
  {
    if LeadingWhitespace(c) < |c| {
      SliceSingleSpaced(c, LeadingWhitespace(c), TextEnd(c, |c|));
    }
  }

  /** The normalised speech has the promised shape. */
  lemma NormalizeIsNormalized(s: string)
    ensures Normalized(Normalize(s))
  {
    TrimSingleSpaced(CollapseWhitespace(s));
  }

  lemma NonWhitespaceOfBlank(s: string)
    requires IsBlank(s)
    ensures NonWhitespace(s) == []
  {
    assert forall i | 0 <= i < |s| :: IsWhitespace(s[i]);
    KeepAllSatisfying(s, IsWhitespace);
  }

  /** Trimming removes whitespace only. */
  lemma TrimKeepsText(c: string)
    ensures NonWhitespace(Trim(c)) == NonWhitespace(c)
  {
    var r := Trim(c);
    var k := LeadingWhitespace(c);
    TrimSlice(c);
    SliceThree(c, k, |r|);
    KeepThree(c[..k], r, c[k + |r|..], IsWhitespace);
    NonWhitespaceOfBlank(c[..k]);
    NonWhitespaceOfBlank(c[k + |r|..]);
  }

  lemma SliceThree(c: string, k: nat, n: nat)
    requires k + n <= |c|
    ensures c == c[..k] + c[k..k + n] + c[k + n..]
  {
  }

  lemma KeepThree(a: string, b: string, d: string, p: char -> bool)
    ensures Keep(a + b + d, p) == Keep(a, p) + Keep(b, p) + Keep(d, p)
  {
    KeepAppend(a + b, d, p);
    KeepAppend(a, b, p);
  }

  /** Normalisation removes whitespace only: the other characters survive in order. */
  lemma NormalizeKeepsText(s: string)
    ensures NonWhitespace(Normalize(s)) == NonWhitespace(s)
  {
    TrimKeepsText(CollapseWhitespace(s));
  }

  lemma {:induction false} CollapseSingleSpaced(s: string)
    requires SingleSpaced(s)
    ensures CollapseWhitespace(s) == s
    decreases |s|
  {
    if s != [] {
      SliceSingleSpaced(s, 1, |s|);
      assert s[1..|s|] == s[1..];
      CollapseSingleSpaced(s[1..]);
      assert SpacedAt(s, 0);
      if IsWhitespace(s[0]) {
        CollapseSpaceStep(s);
      } else {
        CollapseCharStep(s);
      }
      assert s == [s[0]] + s[1..];
    }
  }

  lemma CollapseCharStep(s: string)
    requires s != [] && !IsWhitespace(s[0])
    ensures CollapseWhitespace(s) == [s[0]] + CollapseWhitespace(s[1..])
  {
  }

  lemma CollapseSpaceStep(s: string)
    requires s != [] && s[0] == ' ' && SpacedAt(s, 0)
    ensures CollapseWhitespace(s) == [' '] + CollapseWhitespace(s[1..])
  {
    assert LeadingWhitespace(s) == 1;
  }

  lemma TrimUntouched(t: string)
    requires t == [] || (!IsWhitespace(t[0]) && !IsWhitespace(t[|t| - 1]))
    ensures Trim(t) == t
  {
    if t != [] {
      assert LeadingWhitespace(t) == 0;
      assert TextEnd(t, |t|) == |t|;
      assert t[0..|t|] == t;
    }
  }

  /** A normalised text is left as it is: normalising twice is normalising once. */
  lemma NormalizeIdempotent(s: string)
    ensures Normalize(Normalize(s)) == Normalize(s)
  {
    var t := Normalize(s);
    NormalizeIsNormalized(s);
    CollapseSingleSpaced(t);
    TrimUntouched(t);
  }

  /**
   * `s.replace(/\s+/g, ' ')` is `s.split(/\s+/).join(' ')`: each maximal run
   * of whitespace becomes exactly one space.
   */
  lemma CollapseIsJoinOfWords(s: string)
    ensures CollapseWhitespace(s) == Join(SplitRuns(s, IsWhitespace), " ")
  {
    CollapseJoinFrom(s, 0);
    assert s[0..] == s;
  }

  lemma {:induction false} CollapseJoinFrom(s: string, i: nat)
    requires i <= |s|
    ensures CollapseWhitespace(s[i..]) == Join(SplitFrom(s, i, IsWhitespace), " ")
    decreases |s| - i
  {
    var k := FindFrom(s, i, IsWhitespace);
    if k == |s| {
      CollapseJoinLast(s, i, k);
    } else {
      var m := SkipFrom(s, k, IsWhitespace);
      assert m > k;
      CollapseJoinFrom(s, m);
      CollapseJoinStep(s, i, k, m);
    }
  }

  lemma CollapseJoinLast(s: string, i: nat, k: nat)
    requires i <= |s| && k == FindFrom(s, i, IsWhitespace) && k == |s|
    ensures CollapseWhitespace(s[i..]) == Join(SplitFrom(s, i, IsWhitespace), " ")
  {
    CollapseText(s, i, k);
    SplitFromLast(s, i, k, IsWhitespace);
    assert s[k..] == [];
  }

  lemma CollapseJoinStep(s: string, i: nat, k: nat, m: nat)
    requires i <= |s| && k == FindFrom(s, i, IsWhitespace) && k < |s| && m == SkipFrom(s, k, IsWhitespace)
    requires CollapseWhitespace(s[m..]) == Join(SplitFrom(s, m, IsWhitespace), " ")
    ensures CollapseWhitespace(s[i..]) == Join(SplitFrom(s, i, IsWhitespace), " ")
  {
    var x, rest := s[i..k], SplitFrom(s, m, IsWhitespace);
    CollapseText(s, i, k);
    CollapseRun(s, k, m);
    SpaceBetween(CollapseWhitespace(s[i..]), x, CollapseWhitespace(s[k..]), Join(rest, " "));
    SplitFromStep(s, i, k, m, IsWhitespace);
    JoinCons(x, rest, " ");
  }

  /** Proof step: re-associates a piece, one space and the rest. */
  lemma SpaceBetween(whole: string, x: string, after: string, tail: string)
    requires whole == x + after && after == [' '] + tail
    ensures whole == x + " " + tail
  {
  }

  /** Characters outside whitespace from `i` up to `k` are copied as they are. */
  lemma {:induction false} CollapseText(s: string, i: nat, k: nat)
    requires i <= k <= |s|
    requires forall j | i <= j < k :: !IsWhitespace(s[j])
    ensures CollapseWhitespace(s[i..]) == s[i..k] + CollapseWhitespace(s[k..])
    decreases k - i
  {
    if i < k {
      CollapseText(s, i + 1, k);
      CollapseTextStep(s, i, i + 1, k);
    } else {
      assert s[i..k] == [];
    }
  }

  lemma CollapseTextStep(s: string, i: nat, j: nat, k: nat)
    requires i < j <= k <= |s| && j == i + 1 && !IsWhitespace(s[i])
    requires CollapseWhitespace(s[j..]) == s[j..k] + CollapseWhitespace(s[k..])
    ensures CollapseWhitespace(s[i..]) == s[i..k] + CollapseWhitespace(s[k..])
  {
    var t, u, w := s[i..], s[j..], s[j..k];
    CollapseCharTail(t, u);
    assert s[i..k] == [s[i]] + w;
    PrependAssoc(s[i], w, CollapseWhitespace(s[k..]));
  }

  /** Proof step: re-associates a prepended character. */
  lemma PrependAssoc(c: char, w: string, z: string)
    ensures [c] + (w + z) == ([c] + w) + z
  {
  }

  lemma CollapseCharTail(t: string, u: string)
    requires t != [] && !IsWhitespace(t[0]) && u == t[1..]
    ensures CollapseWhitespace(t) == [t[0]] + CollapseWhitespace(u)
  {
    CollapseCharStep(t);
  }

  /** The whitespace run from `k` up to `m` becomes one space. */
  lemma CollapseRun(s: string, k: nat, m: nat)
    requires k < |s| && IsWhitespace(s[k]) && m == SkipFrom(s, k, IsWhitespace)
    ensures CollapseWhitespace(s[k..]) == [' '] + CollapseWhitespace(s[m..])
  {
    var a, b := s[..k], s[k..];
    assert s == a + b;
    SkipFromShift(a, b, 0, k, IsWhitespace);
    var n := m - k;
    assert LeadingWhitespace(b) == n;
    assert b[n..] == s[m..];
    CollapseLeadingRun(b, n);
  }

  lemma CollapseLeadingRun(t: string, n: nat)
    requires t != [] && IsWhitespace(t[0]) && n == LeadingWhitespace(t)
    ensures CollapseWhitespace(t) == [' '] + CollapseWhitespace(t[n..])
  {
  }

  lemma JoinCons(x: string, rest: seq<string>, sep: string)
    requires |rest| >= 1
    ensures Join([x] + rest, sep) == x + sep + Join(rest, sep)
  {
    assert ([x] + rest)[1..] == rest;
  }

  /** Concatenation of a sequence of strings. */
  function Concat(pieces: seq<string>): string {
    if pieces == [] then [] else pieces[0] + Concat(pieces[1..])
  }

  /** The pieces joined with `sep` between neighbours (`Array.prototype.join`). */
  function Join(pieces: seq<string>, sep: string): string {
    if pieces == [] then []
    else if |pieces| == 1 then pieces[0]
    else pieces[0] + sep + Join(pieces[1..], sep)
  }

  predicate NoneSatisfy(s: string, p: char -> bool) {
    forall i | 0 <= i < |s| :: !p(s[i])
  }

  /**
   * `s.split(re)` for a regular expression `re` that matches a non-empty run
   * of characters satisfying `sep`: the pieces between maximal runs, an empty
   * piece before a leading run and after a trailing one, and `[""]` for "".
   */
  function SplitRuns(s: string, sep: char -> bool): (pieces: seq<string>)
    ensures |pieces| >= 1
    ensures forall j | 0 <= j < |pieces| :: NoneSatisfy(pieces[j], sep)
  {
    SplitFrom(s, 0, sep)
  }

  /** The pieces of `s[i..]`, split at each maximal run of separators. */
  function SplitFrom(s: string, i: nat, sep: char -> bool): (pieces: seq<string>)
    requires i <= |s|
    ensures |pieces| >= 1
    ensures forall j | 0 <= j < |pieces| :: NoneSatisfy(pieces[j], sep)
    decreases |s| - i
  {
    var k := FindFrom(s, i, sep);
    NoneSatisfySlice(s, i, k, sep);
    if k == |s| then
      [s[i..k]]
    else
      [s[i..k]] + SplitFrom(s, SkipFrom(s, k, sep), sep)
  }

  lemma NoneSatisfySlice(s: string, i: nat, j: nat, p: char -> bool)
    requires i <= j <= |s|
    requires forall k | i <= k < j :: !p(s[k])
    ensures NoneSatisfy(s[i..j], p)
  {
    forall k | 0 <= k < j - i ensures !p(s[i..j][k]) {
      assert s[i..j][k] == s[i + k];
    }
  }

  /** The pieces of a split, put back together, are the input without its separators. */
  lemma SplitRunsKeepsText(s: string, sep: char -> bool)
    ensures Concat(SplitRuns(s, sep)) == Keep(s, sep)
  {
    SplitFromKeepsText(s, 0, sep);
    assert s[0..] == s;
  }

  lemma {:induction false} SplitFromKeepsText(s: string, i: nat, sep: char -> bool)
    requires i <= |s|
    ensures Concat(SplitFrom(s, i, sep)) == Keep(s[i..], sep)
    decreases |s| - i
  {
    var k := FindFrom(s, i, sep);
    NoneSatisfySlice(s, i, k, sep);
    KeepNoneSatisfying(s[i..k], sep);
    if k == |s| {
      assert s[i..k] == s[i..];
      ConcatCons(s[i..k], []);
    } else {
      var m := SkipFrom(s, k, sep);
      SplitFromKeepsText(s, m, sep);
      KeepSplitAt(s, i, k, m, sep);
      ConcatCons(s[i..k], SplitFrom(s, m, sep));
    }
  }

  lemma ConcatCons(x: string, rest: seq<string>)
    ensures Concat([x] + rest) == x + Concat(rest)
  {
    assert ([x] + rest)[1..] == rest;
  }

  /**
   * Keeping the characters of `s[i..]` when those from `i` up to `k` do not
   * satisfy `p` and those from `k` up to `m` do.
   */
  lemma KeepSplitAt(s: string, i: nat, k: nat, m: nat, p: char -> bool)
    requires i <= k <= m <= |s|
    requires Keep(s[i..k], p) == s[i..k]
    requires forall j | k <= j < m :: p(s[j])
    ensures Keep(s[i..], p) == s[i..k] + Keep(s[m..], p)
  {
    KeepAt(s, i, k, p);
    KeepSkip(s, k, m, p);
  }

  lemma KeepAt(s: string, i: nat, k: nat, p: char -> bool)
    requires i <= k <= |s|
    ensures Keep(s[i..], p) == Keep(s[i..k], p) + Keep(s[k..], p)
  {
    assert s[i..] == s[i..k] + s[k..];
    KeepAppend(s[i..k], s[k..], p);
  }

  /** Characters satisfying `p` from `k` up to `m` contribute nothing. */
  lemma KeepSkip(s: string, k: nat, m: nat, p: char -> bool)
    requires k <= m <= |s|
    requires forall i | k <= i < m :: p(s[i])
    ensures Keep(s[k..], p) == Keep(s[m..], p)
  {
    var after := s[k..];
    forall i | 0 <= i < m - k ensures p(after[i]) {
      assert after[i] == s[k + i];
    }
    KeepBlankPrefix(after, m - k, p);
    assert after[m - k..] == s[m..];
  }

  /**
   * Splitting text joined with a one-character separator gives the pieces
   * back, when no piece is empty or holds a separator character.
   */
  lemma {:induction false} SplitJoinRoundTrip(pieces: seq<string>, c: char, sep: char -> bool)
    requires |pieces| >= 1 && sep(c)
    requires forall j | 0 <= j < |pieces| :: pieces[j] != [] && NoneSatisfy(pieces[j], sep)
    ensures SplitRuns(Join(pieces, [c]), sep) == pieces
  {
    if |pieces| == 1 {
      SplitSingle(pieces[0], sep);
    } else {
      SplitJoinRoundTrip(pieces[1..], c, sep);
      SplitJoinStep(pieces, c, sep);
    }
  }

  lemma SplitSingle(s: string, sep: char -> bool)
    requires NoneSatisfy(s, sep)
    ensures SplitRuns(s, sep) == [s]
  {
    assert FindFrom(s, 0, sep) == |s|;
    assert s[0..|s|] == s;
  }

  lemma SplitJoinStep(pieces: seq<string>, c: char, sep: char -> bool)
    requires |pieces| >= 2 && sep(c)
    requires NoneSatisfy(pieces[0], sep) && pieces[1] != []  && !sep(pieces[1][0])
    requires SplitRuns(Join(pieces[1..], [c]), sep) == pieces[1..]
    ensures SplitRuns(Join(pieces, [c]), sep) == pieces
  {
    var rest := Join(pieces[1..], [c]);
    assert Join(pieces, [c]) == pieces[0] + [c] + rest;
    JoinStartsWith(pieces[1..], [c]);
    SplitOneRun(pieces[0], c, rest, sep);
    assert [pieces[0]] + pieces[1..] == pieces;
  }

  /** A single separator between a separator-free piece and the rest splits off that piece. */
  lemma SplitOneRun(head: string, c: char, rest: string, sep: char -> bool)
    requires NoneSatisfy(head, sep) && sep(c) && rest != [] && !sep(rest[0])
    ensures SplitRuns(head + [c] + rest, sep) == [head] + SplitRuns(rest, sep)
  {
    var s := head + [c] + rest;
    var n := |head|;
    assert s[n] == c && s[n + 1] == rest[0];
    assert forall k | 0 <= k < n :: s[k] == head[k];
    assert FindFrom(s, 0, sep) == n;
    assert SkipFrom(s, n, sep) == n + 1;
    assert s[0..n] == head;
    SplitFromShift(head + [c], rest, 0, n + 1, sep);
    assert s == (head + [c]) + rest;
  }

  /** Splitting from a position inside the second part of `a + b` ignores `a`. */
  lemma {:induction false} SplitFromShift(a: string, b: string, i: nat, j: nat, sep: char -> bool)
    requires i <= |b| && j == |a| + i
    ensures SplitFrom(a + b, j, sep) == SplitFrom(b, i, sep)
    decreases |b| - i
  {
    var s := a + b;
    var k := FindFrom(b, i, sep);
    var k1 := |a| + k;
    FindFromShift(a, b, i, j, sep);
    SliceShift(a, b, i, k);
    assert s[j..k1] == b[i..k];
    if k == |b| {
      SplitFromLast(s, j, k1, sep);
      SplitFromLast(b, i, k, sep);
    } else {
      var m := SkipFrom(b, k, sep);
      var m1 := |a| + m;
      SkipFromShift(a, b, k, k1, sep);
      SplitFromStep(s, j, k1, m1, sep);
      SplitFromStep(b, i, k, m, sep);
      SplitFromShift(a, b, m, m1, sep);
    }
  }

  lemma SplitFromLast(s: string, i: nat, k: nat, sep: char -> bool)
    requires i <= |s| && k == FindFrom(s, i, sep) && k == |s|
    ensures SplitFrom(s, i, sep) == [s[i..k]]
  {
  }

  lemma SplitFromStep(s: string, i: nat, k: nat, m: nat, sep: char -> bool)
    requires i <= |s| && k == FindFrom(s, i, sep) && k < |s| && m == SkipFrom(s, k, sep)
    ensures SplitFrom(s, i, sep) == [s[i..k]] + SplitFrom(s, m, sep)
  {
  }

  lemma SliceShift(a: string, b: string, i: nat, k: nat)
    requires i <= k <= |b|
    ensures (a + b)[|a| + i..|a| + k] == b[i..k]
  {
  }

  lemma {:induction false} FindFromShift(a: string, b: string, i: nat, j: nat, p: char -> bool)
    requires i <= |b| && j == |a| + i
    ensures FindFrom(a + b, j, p) == |a| + FindFrom(b, i, p)
    decreases |b| - i
  {
    if i < |b| {
      assert (a + b)[j] == b[i];
      if !p(b[i]) { FindFromShift(a, b, i + 1, j + 1, p); }
    }
  }

  lemma {:induction false} SkipFromShift(a: string, b: string, i: nat, j: nat, p: char -> bool)
    requires i <= |b| && j == |a| + i
    ensures SkipFrom(a + b, j, p) == |a| + SkipFrom(b, i, p)
    decreases |b| - i
  {
    if i < |b| {
      assert (a + b)[j] == b[i];
      if p(b[i]) { SkipFromShift(a, b, i + 1, j + 1, p); }
    }
  }

  lemma {:induction false} JoinStartsWith(pieces: seq<string>, sep: string)
    requires |pieces| >= 1 && pieces[0] != []
    ensures Join(pieces, sep) != [] && Join(pieces, sep)[0] == pieces[0][0]
  {
  }

  /** Joining two non-empty lists of pieces is joining each and putting the separator between. */
  lemma {:induction false} JoinAppend(a: seq<string>, b: seq<string>, sep: string)
    requires |a| >= 1 && |b| >= 1
    ensures Join(a + b, sep) == Join(a, sep) + sep + Join(b, sep)
    decreases |a|
  {
    assert (a + b)[0] == a[0];
    if |a| == 1 {
      assert (a + b)[1..] == b;
    } else {
      assert (a + b)[1..] == a[1..] + b;
      JoinAppend(a[1..], b, sep);
    }
  }

  /**
   * `s.split(c)` for a single character `c`: the pieces between consecutive
   * occurrences of `c`, empty ones included, so joining them with `c` gives
   * `s` back.
   */
  function SplitOn(s: string, c: char): (pieces: seq<string>)
    ensures |pieces| >= 1
    ensures forall j | 0 <= j < |pieces| :: c !in pieces[j]
    ensures Join(pieces, [c]) == s
    decreases |s|
  {
    if s == [] then [[]]
    else
      var rest := SplitOn(s[1..], c);
      if s[0] == c then
        assert s == [c] + s[1..];
        [[]] + rest
      else
        SplitOnGrow(s, rest, c);
        [[s[0]] + rest[0]] + rest[1..]
  }

  lemma SplitOnGrow(s: string, rest: seq<string>, c: char)
    requires s != [] && s[0] != c && |rest| >= 1
    requires forall j | 0 <= j < |rest| :: c !in rest[j]
    requires Join(rest, [c]) == s[1..]
    ensures forall j | 0 <= j < |[[s[0]] + rest[0]] + rest[1..]| :: c !in ([[s[0]] + rest[0]] + rest[1..])[j]
    ensures Join([[s[0]] + rest[0]] + rest[1..], [c]) == s
  {
    var pieces := [[s[0]] + rest[0]] + rest[1..];
    assert pieces[1..] == rest[1..];
    assert c !in pieces[0];
    if |rest| == 1 {
      assert s == [s[0]] + s[1..];
    } else {
      assert Join(rest, [c]) == rest[0] + [c] + Join(rest[1..], [c]);
      assert s == [s[0]] + s[1..];
    }
  }

  /** A piece free of `c` followed by `c` splits off as the first piece. */
  lemma {:induction false} SplitOnCons(x: string, c: char, y: string)
    requires c !in x
    ensures SplitOn(x + [c] + y, c) == [x] + SplitOn(y, c)
    decreases |x|
  {
    if x == [] {
      assert x + [c] + y == [c] + y;
      assert ([c] + y)[1..] == y;
    } else {
      assert (x + [c] + y)[1..] == x[1..] + [c] + y;
      assert x[1..] + [c] + y != [];
      assert (x + [c] + y)[0] == x[0];
      SplitOnCons(x[1..], c, y);
      assert [x[0]] + x[1..] == x;
    }
  }

  /** Text with no `c` in it is a single piece. */
  lemma {:induction false} SplitOnFree(s: string, c: char)
    requires c !in s
    ensures SplitOn(s, c) == [s]
    decreases |s|
  {
    if s != [] {
      assert c !in s[1..] by {
        forall x | x in s[1..] ensures x in s { }
      }
      SplitOnFree(s[1..], c);
      assert [s[0]] + s[1..] == s;
    }
  }

  /**
   * Lines free of `c` joined with `c`, possibly followed by more lines, are
   * the first pieces of splitting the result on `c`.
   */
  lemma {:induction false} SplitOnJoinPrefix(lines: seq<string>, more: seq<string>, c: char)
    requires |lines| >= 1
    requires forall j | 0 <= j < |lines| :: c !in lines[j]
    ensures |SplitOn(Join(lines + more, [c]), c)| >= |lines|
    ensures SplitOn(Join(lines + more, [c]), c)[..|lines|] == lines
    decreases |lines|
  {
    var all := lines + more;
    if |all| == 1 {
      assert all == lines;
      SplitOnFree(lines[0], c);
    } else {
      var tail := Join(all[1..], [c]);
      assert Join(all, [c]) == all[0] + [c] + tail;
      SplitOnCons(all[0], c, tail);
      var split := SplitOn(tail, c);
      if |lines| == 1 {
        PrefixCons(lines[0], split, lines);
      } else {
        var rest := lines[1..];
        assert all[1..] == rest + more;
        SplitOnJoinPrefix(rest, more, c);
        PrefixCons(lines[0], split, lines);
      }
    }
  }

  lemma PrefixCons(x: string, rest: seq<string>, lines: seq<string>)
    requires |lines| >= 1 && x == lines[0]
    requires |rest| >= |lines| - 1 && rest[..|lines| - 1] == lines[1..]
    ensures ([x] + rest)[..|lines|] == lines
  {
    var n := |lines|;
    assert ([x] + rest)[..n] == [x] + rest[..n - 1];
    assert lines == [lines[0]] + lines[1..];
  }

  /**
   * Splitting a normalised, non-empty text on whitespace runs yields no empty
   * piece: every piece counted is a word.
   */
  lemma NormalizedWordsNonEmpty(t: string)
    requires Normalized(t) && t != []
    ensures NoEmptyPiece(SplitRuns(t, IsWhitespace))
  {
    NormalizedPiecesFrom(t, 0);
  }

  predicate NoEmptyPiece(pieces: seq<string>) {
    forall j | 0 <= j < |pieces| :: pieces[j] != []
  }

  lemma {:induction false} NormalizedPiecesFrom(t: string, i: nat)
    requires Normalized(t) && i < |t| && !IsWhitespace(t[i])
    ensures NoEmptyPiece(SplitFrom(t, i, IsWhitespace))
    decreases |t| - i
  {
    var k := FindFrom(t, i, IsWhitespace);
    if k < |t| {
      var next := k + 1;
      assert SpacedAt(t, k);
      assert SkipFrom(t, k, IsWhitespace) == next;
      SplitFromStep(t, i, k, next, IsWhitespace);
      NormalizedPiecesFrom(t, next);
      NoEmptyCons(t[i..k], SplitFrom(t, next, IsWhitespace));
    }
  }

  lemma NoEmptyCons(head: string, tail: seq<string>)
    requires head != [] && NoEmptyPiece(tail)
    ensures NoEmptyPiece([head] + tail)
  {
    assert forall j | 1 <= j < |tail| + 1 :: ([head] + tail)[j] == tail[j - 1];
  }

  /** ASCII upper-case letters folded to lower case, everything else kept. */
  function LowerAscii(s: string): (r: string)
    ensures |r| == |s|
    ensures forall i | 0 <= i < |s| :: r[i] == (if 'A' <= s[i] <= 'Z' then (s[i] as int + 32) as char else s[i])
  {
    if s == [] then []
    else [if 'A' <= s[0] <= 'Z' then (s[0] as int + 32) as char else s[0]] + LowerAscii(s[1..])
  }

  /** `s.includes(w)`. */
  predicate Contains(s: string, w: string) {
    exists k | 0 <= k <= |s| - |w| :: OccursAt(s, w, k)
  }

  predicate OccursAt(s: string, w: string, k: nat) {
    k + |w| <= |s| && s[k..k + |w|] == w
  }
}
