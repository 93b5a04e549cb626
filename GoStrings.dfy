/** The parts of Go's `strings` and `path` packages that the SSH service relies
    on, written out over `string` (a sequence of Unicode scalar values), together
    with Go's byte-wise ordering of strings. */
module GoStrings {

  datatype Option<T> = None | Some(value: T)

  /** strings.HasPrefix */
  predicate HasPrefix(s: string, prefix: string) {
    |prefix| <= |s| && s[..|prefix|] == prefix
  }

  /** strings.HasSuffix */
  predicate HasSuffix(s: string, suffix: string) {
    |suffix| <= |s| && s[|s| - |suffix|..] == suffix
  }

  /** strings.TrimSuffix: drops `suffix` once when `s` ends with it. */
  function TrimSuffix(s: string, suffix: string): (r: string)
    ensures HasSuffix(s, suffix) ==> r + suffix == s
    ensures !HasSuffix(s, suffix) ==> r == s
  {
    if HasSuffix(s, suffix) then s[..|s| - |suffix|] else s
  }

  /** strings.Index: the first position at which `sep` occurs in `s`. */
  function IndexOf(s: string, sep: string): (r: Option<nat>)
    ensures r.Some? ==> r.value + |sep| <= |s| && HasPrefix(s[r.value..], sep)
    ensures r.Some? ==> forall k :: 0 <= k < r.value ==> !HasPrefix(s[k..], sep)
    ensures r.None? ==> forall k :: 0 <= k <= |s| ==> !HasPrefix(s[k..], sep)
    decreases |s|
  {
    if HasPrefix(s, sep) then Some(0)
    else if s == [] then None
    else
      var rest := IndexOf(s[1..], sep);
      IndexOfShift(s, sep, rest);
      match rest
      case Some(i) => Some(i + 1)
      case None => None
  }

  /** What IndexOf knows about the tail of `s`, moved one position right. */
  lemma IndexOfShift(s: string, sep: string, rest: Option<nat>)
    requires s != [] && !HasPrefix(s, sep)
    requires rest.Some? ==> rest.value + |sep| <= |s| - 1 && HasPrefix(s[1..][rest.value..], sep)
    requires rest.Some? ==> forall k :: 0 <= k < rest.value ==> !HasPrefix(s[1..][k..], sep)
    requires rest.None? ==> forall k :: 0 <= k <= |s| - 1 ==> !HasPrefix(s[1..][k..], sep)
    ensures rest.Some? ==> HasPrefix(s[rest.value + 1..], sep)
    ensures rest.Some? ==> forall k :: 0 <= k < rest.value + 1 ==> !HasPrefix(s[k..], sep)
    ensures rest.None? ==> forall k :: 0 <= k <= |s| ==> !HasPrefix(s[k..], sep)
  {
    assert s[0..] == s;
    forall k | 1 <= k <= |s|
      ensures s[k..] == s[1..][k - 1..]
    {
    }
  }

  /** strings.Contains */
  predicate Contains(s: string, sub: string) {
    IndexOf(s, sub).Some?
  }

  /** `sub` occurs in `s` when it is a prefix of some suffix of `s`. */
  lemma ContainsAt(s: string, sub: string, k: nat)
    requires k <= |s| && HasPrefix(s[k..], sub)
    ensures Contains(s, sub)
  {
  }

  /** A string that contains `sub` contains every prefix of `sub`. */
  lemma ContainsPrefix(s: string, sub: string, pre: string)
    requires HasPrefix(sub, pre) && Contains(s, sub)
    ensures Contains(s, pre)
  {
    var k := IndexOf(s, sub).value;
    assert s[k..][..|pre|] == s[k..][..|sub|][..|pre|];
    ContainsAt(s, pre, k);
  }

  /** strings.ReplaceAll: scans left to right and replaces non-overlapping
      occurrences of `old`; an empty `old` inserts `new` around every character. */
  function ReplaceAll(s: string, pat: string, repl: string): string
    decreases |s|
  {
    if pat == [] then
      if s == [] then repl else repl + [s[0]] + ReplaceAll(s[1..], pat, repl)
    else if HasPrefix(s, pat) then repl + ReplaceAll(s[|pat|..], pat, repl)
    else if s == [] then []
    else [s[0]] + ReplaceAll(s[1..], pat, repl)
  }

  /** Replacing a string that does not occur leaves the text as it is. */
  lemma {:induction false} ReplaceAllAbsent(s: string, pat: string, repl: string)
    requires pat != [] && !Contains(s, pat)
    ensures ReplaceAll(s, pat, repl) == s
    decreases |s|
  {
    if s != [] {
      ReplaceAllAbsent(s[1..], pat, repl);
    }
  }

  /** unicode.IsSpace, the separator test of strings.Fields. */
  predicate IsSpace(c: char) {
    c == '\t' || c == '\n' || c == '\U{B}' || c == '\U{C}' || c == '\r' || c == ' '
    || c == '\U{85}' || c == '\U{A0}' || c == '\U{1680}'
    || ('\U{2000}' <= c <= '\U{200A}')
    || c == '\U{2028}' || c == '\U{2029}' || c == '\U{202F}' || c == '\U{205F}' || c == '\U{3000}'
  }

  /** A field as strings.Fields produces it: non-empty, no white space. */
  predicate IsToken(t: string) {
    t != [] && forall k :: 0 <= k < |t| ==> !IsSpace(t[k])
  }

  /** Length of the run of non-space characters at the start of `s`. */
  function TokenLen(s: string): (n: nat)
    ensures n <= |s|
    ensures forall k :: 0 <= k < n ==> !IsSpace(s[k])
    ensures n < |s| ==> IsSpace(s[n])
  {
    if s == [] || IsSpace(s[0]) then 0 else 1 + TokenLen(s[1..])
  }

  /** strings.Fields: the maximal runs of non-space characters, in order. */
  function Fields(s: string): (fs: seq<string>)
    ensures forall i :: 0 <= i < |fs| ==> IsToken(fs[i])
    decreases |s|
  {
    if s == [] then []
    else if IsSpace(s[0]) then Fields(s[1..])
    else
      var n := TokenLen(s);
      [s[..n]] + Fields(s[n..])
  }

  /** White space only, possibly none. */
  predicate IsBlank(g: string) {
    forall k :: 0 <= k < |g| ==> IsSpace(g[k])
  }

  /** What separates two fields: a run of at least one white-space character. */
  predicate IsGap(g: string) {
    g != [] && IsBlank(g)
  }

  /** The tokens written one after the other, with gs[i] between ts[i] and ts[i + 1]. */
  function Interleave(ts: seq<string>, gs: seq<string>): string
    requires |ts| == |gs| + 1
    decreases |gs|
  {
    if gs == [] then ts[0] else ts[0] + gs[0] + Interleave(ts[1..], gs[1..])
  }

  /** A line made of the tokens `ts` separated by the gaps `gs`, with white
      space `lead` before and `trail` after. */
  predicate WellSpaced(lead: string, ts: seq<string>, gs: seq<string>, trail: string) {
    && |ts| == |gs| + 1
    && (forall i :: 0 <= i < |ts| ==> IsToken(ts[i]))
    && (forall i :: 0 <= i < |gs| ==> IsGap(gs[i]))
    && IsBlank(lead) && IsBlank(trail)
  }

  lemma {:induction false} TokenLenOfToken(t: string, rest: string)
    requires IsToken(t)
    requires rest == [] || IsSpace(rest[0])
    ensures TokenLen(t + rest) == |t|
    decreases |t|
  {
    var s := t + rest;
    assert s[0] == t[0] && !IsSpace(t[0]);
    if |t| == 1 {
      assert s[1..] == rest;
    } else {
      assert s[1..] == t[1..] + rest;
      assert forall k :: 0 <= k < |t[1..]| ==> t[1..][k] == t[k + 1];
      TokenLenOfToken(t[1..], rest);
    }
  }

  /** Leading white space does not change the fields. */
  lemma {:induction false} FieldsSkipsBlank(g: string, s: string)
    requires IsBlank(g)
    ensures Fields(g + s) == Fields(s)
    decreases |g|
  {
    if g == [] {
      assert g + s == s;
    } else {
      assert (g + s)[0] == g[0];
      assert (g + s)[1..] == g[1..] + s;
      FieldsSkipsBlank(g[1..], s);
    }
  }

  /** A token followed by white space (or nothing) is the first field. */
  lemma FieldsAfterToken(t: string, rest: string)
    requires IsToken(t)
    requires rest == [] || IsSpace(rest[0])
    ensures Fields(t + rest) == [t] + Fields(rest)
  {
    var s := t + rest;
    TokenLenOfToken(t, rest);
    assert s[0] == t[0];
    assert s[..|t|] == t;
    assert s[|t|..] == rest;
  }

  /** Splitting tokens separated by white-space runs and followed by white
      space gives the tokens back. */
  lemma {:induction false} FieldsOfInterleave(ts: seq<string>, gs: seq<string>, trail: string)
    requires WellSpaced("", ts, gs, trail)
    ensures Fields(Interleave(ts, gs) + trail) == ts
    decreases |gs|
  {
    if gs == [] {
      FieldsAfterToken(ts[0], trail);
      FieldsSkipsBlank(trail, []);
      assert trail + [] == trail;
    } else {
      var tail := Interleave(ts[1..], gs[1..]) + trail;
      assert Interleave(ts, gs) + trail == ts[0] + (gs[0] + tail);
      FieldsAfterToken(ts[0], gs[0] + tail);
      FieldsSkipsBlank(gs[0], tail);
      FieldsOfInterleave(ts[1..], gs[1..], trail);
    }
  }

  /** strings.Fields of a well-spaced line is its tokens, whatever white
      space separates, precedes or follows them. */
  lemma FieldsOfSpaced(lead: string, ts: seq<string>, gs: seq<string>, trail: string)
    requires WellSpaced(lead, ts, gs, trail)
    ensures Fields(lead + Interleave(ts, gs) + trail) == ts
  {
    FieldsOfInterleave(ts, gs, trail);
    assert lead + Interleave(ts, gs) + trail == lead + (Interleave(ts, gs) + trail);
    FieldsSkipsBlank(lead, Interleave(ts, gs) + trail);
  }

  /** The text of `rest` up to the first occurrence of `sep` (or the end). */
  function Segment(rest: string, sep: string): (m: string)
    requires sep != []
    ensures |m| <= |rest| && rest[..|m|] == m
    ensures |m| == |rest| || HasPrefix(rest[|m|..], sep)
    ensures !Contains(m, sep)
  {
    match IndexOf(rest, sep)
    case None => rest
    case Some(j) =>
      BeforeFirstOccurrence(rest, sep, j);
      rest[..j]
  }

  /** The text after the first occurrence of `sep`: a suffix of `s` that is
      preceded by that occurrence. */
  function AfterFirst(s: string, sep: string): (rest: string)
    requires Contains(s, sep)
    ensures HasSuffix(s, rest) && |rest| + |sep| <= |s|
    ensures IndexOf(s, sep) == Some(|s| - |rest| - |sep|)
  {
    s[IndexOf(s, sep).value + |sep|..]
  }

  /** strings.Split(s, sep)[1] for a string that contains `sep`: the text
      between the first and the second occurrence of `sep` (or the end). */
  function SplitSecond(s: string, sep: string): (m: string)
    requires sep != [] && Contains(s, sep)
    ensures HasPrefix(AfterFirst(s, sep), m)
    ensures |m| == |AfterFirst(s, sep)| || HasPrefix(AfterFirst(s, sep)[|m|..], sep)
    ensures !Contains(m, sep)
  {
    Segment(AfterFirst(s, sep), sep)
  }

  /** The text before the first occurrence of `sep` does not contain `sep`. */
  lemma BeforeFirstOccurrence(s: string, sep: string, j: nat)
    requires sep != [] && IndexOf(s, sep) == Some(j)
    ensures !Contains(s[..j], sep)
  {
    var m := s[..j];
    forall k | 0 <= k <= |m|
      ensures !HasPrefix(m[k..], sep)
    {
      if k + |sep| <= |m| {
        assert !HasPrefix(s[k..], sep);
        assert m[k..][..|sep|] == s[k..][..|sep|];
      }
    }
    NoOccurrence(m, sep);
  }

  /** A string none of whose suffixes starts with `sep` does not contain it. */
  lemma NoOccurrence(m: string, sep: string)
    requires forall k :: 0 <= k <= |m| ==> !HasPrefix(m[k..], sep)
    ensures !Contains(m, sep)
  {
  }

  /** path.Base: the last element of a slash-separated path. */
  function Base(p: string): (b: string)
    ensures b != []
    ensures b == "/" || forall k :: 0 <= k < |b| ==> b[k] != '/'
  {
    if p == [] then "."
    else
      var q := TrimSlashes(p);
      if q == [] then "/" else AfterLastSlash(q)
  }

  function TrimSlashes(p: string): (q: string)
    ensures |q| <= |p| && q == p[..|q|]
    ensures q == [] || q[|q| - 1] != '/'
  {
    if p != [] && p[|p| - 1] == '/' then TrimSlashes(p[..|p| - 1]) else p
  }

  function AfterLastSlash(q: string): (b: string)
    requires q != [] && q[|q| - 1] != '/'
    ensures b != [] && forall k :: 0 <= k < |b| ==> b[k] != '/'
  {
    if |q| == 1 || q[|q| - 2] == '/' then [q[|q| - 1]]
    else AfterLastSlash(q[..|q| - 1]) + [q[|q| - 1]]
  }

  /** Go's `<` on strings: lexicographic by character (UTF-8 byte order and
      code point order agree). */
  predicate Less(a: string, b: string) {
    if a == [] then b != []
    else b != [] && (a[0] < b[0] || (a[0] == b[0] && Less(a[1..], b[1..])))
  }

  lemma LessIrreflexive(a: string)
    ensures !Less(a, a)
  {
  }

  lemma {:induction false} LessTransitive(a: string, b: string, c: string)
    requires Less(a, b) && Less(b, c)
    ensures Less(a, c)
    decreases |a|
  {
    if a != [] && a[0] == b[0] && b[0] == c[0] {
      LessTransitive(a[1..], b[1..], c[1..]);
    }
  }

  lemma {:induction false} LessTotal(a: string, b: string)
    ensures a == b || Less(a, b) || Less(b, a)
    decreases |a|
  {
    if a != [] && b != [] && a[0] == b[0] {
      LessTotal(a[1..], b[1..]);
      if a[1..] == b[1..] {
        assert a == [a[0]] + a[1..] && b == [b[0]] + b[1..];
      }
    }
  }

  /** "Not after" is transitive: the order sort.Slice relies on. */
  lemma NotLessTransitive(a: string, b: string, c: string)
    requires !Less(b, a) && !Less(c, b)
    ensures !Less(c, a)
  {
    LessTotal(a, b);
    LessTotal(b, c);
    if Less(c, a) {
      if Less(a, b) { LessTransitive(c, a, b); }
      if Less(c, b) && Less(b, c) { LessTransitive(c, b, c); LessIrreflexive(c); }
    }
  }

  lemma LessAsymmetric(a: string, b: string)
    requires Less(a, b)
    ensures !Less(b, a)
  {
    if Less(b, a) { LessTransitive(a, b, a); LessIrreflexive(a); }
  }
}
