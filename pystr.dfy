/**
 * The Python `str` operations the bot relies on, written out with the same
 * semantics: `isspace`, `strip`, `startswith`, `index`/`find`, `split(sep)`,
 * `split()`, `join`, `replace`, slicing `s[k:]` and repetition `s * n`.
 */
module PyStr {
  import opened Wrappers

  /** The characters for which Python's `str.isspace()` holds (also what `\s` matches in `re`). */
  predicate IsSpace(c: char) {
    c == ' ' || c == '\t' || c == '\n' || c == '\r' || c == '\U{000B}' || c == '\U{000C}'
    || ('\U{001C}' <= c <= '\U{001F}') || c == '\U{0085}' || c == '\U{00A0}' || c == '\U{1680}'
    || ('\U{2000}' <= c <= '\U{200A}') || c == '\U{2028}' || c == '\U{2029}' || c == '\U{202F}'
    || c == '\U{205F}' || c == '\U{3000}'
  }

  predicate NoSpace(s: string) {
    forall i :: 0 <= i < |s| ==> !IsSpace(s[i])
  }

  /** True when `s` neither starts nor ends with whitespace. */
  predicate Trimmed(s: string) {
    s == [] || (!IsSpace(s[0]) && !IsSpace(s[|s| - 1]))
  }

  // ---------------------------------------------------------------- prefixes and search

  predicate StartsWith(s: string, p: string) {
    |p| <= |s| && s[..|p|] == p
  }

  predicate EndsWith(s: string, p: string) {
    |p| <= |s| && s[|s| - |p|..] == p
  }

  /** A concatenation starts with its first part and ends with its last. */
  lemma Ends(x: string, y: string)
    ensures StartsWith(x + y, x) && EndsWith(x + y, y)
  {
    assert (x + y)[..|x|] == x;
    assert (x + y)[|x + y| - |y|..] == y;
  }

  predicate OccursAt(s: string, p: string, i: int) {
    0 <= i && i + |p| <= |s| && s[i..i + |p|] == p
  }

  predicate Contains(s: string, p: string) {
    exists i | 0 <= i <= |s| :: OccursAt(s, p, i)
  }

  /** A pattern absent from `s` is absent from its tail. */
  lemma AbsentFromTail(s: string, p: string)
    requires s != [] && !Contains(s, p)
    ensures !Contains(s[1..], p)
  {
    forall j | 0 <= j <= |s[1..]| ensures !OccursAt(s[1..], p, j) {
      assert !OccursAt(s, p, j + 1);
      if j + |p| <= |s[1..]| {
        assert s[1..][j..j + |p|] == s[j + 1..j + 1 + |p|];
      }
    }
  }

  /** `i` is the leftmost position at which `p` occurs in `s`. */
  predicate FirstAt(s: string, p: string, i: nat) {
    OccursAt(s, p, i) && forall j :: 0 <= j < i ==> !OccursAt(s, p, j)
  }

  /** An occurrence past the first character is an occurrence in the tail, one place earlier. */
  lemma OccursInTail(s: string, p: string)
    requires s != []
    ensures forall j :: 0 < j ==> (OccursAt(s, p, j) <==> OccursAt(s[1..], p, j - 1))
  {
    forall j | 0 < j
      ensures OccursAt(s, p, j) <==> OccursAt(s[1..], p, j - 1)
    {
      if j + |p| <= |s| {
        var here, there := s[j..j + |p|], s[1..][j - 1..j - 1 + |p|];
        assert forall k :: 0 <= k < |p| ==> here[k] == there[k];
        assert here == there;
      }
    }
  }

  /** `s.find(p)`: the first index at which `p` occurs, or None (where `s.index(p)` raises). */
  function Find(s: string, p: string): (r: Option<nat>)
    ensures r.Some? ==> FirstAt(s, p, r.value)
    ensures r.None? ==> !Contains(s, p)
    decreases |s|
  {
    if StartsWith(s, p) then Some(0)
    else if s == [] then None
    else
      OccursInTail(s, p);
      match Find(s[1..], p)
      case None => None
      case Some(k) => Some(k + 1)
  }

  // ---------------------------------------------------------------- strip

  function StripLeft(s: string): (r: string)
    ensures r == [] || !IsSpace(r[0])
    ensures |r| <= |s|
  {
    if s == [] || !IsSpace(s[0]) then s else StripLeft(s[1..])
  }

  function StripRight(s: string): (r: string)
    ensures r == [] || !IsSpace(r[|r| - 1])
    ensures |r| <= |s|
  {
    if s == [] || !IsSpace(s[|s| - 1]) then s else StripRight(s[..|s| - 1])
  }

  /** `s.strip()`. */
  function Strip(s: string): (r: string)
    ensures Trimmed(r)
    ensures |r| <= |s|
  {
    var l := StripLeft(s);
    var r := StripRight(l);
    StripRightIsPrefix(l);
    assert r != [] ==> r[0] == l[0];
    r
  }

  /** What `lstrip` keeps is a suffix of its input. */
  lemma {:induction false} StripLeftIsSuffix(s: string)
    ensures StripLeft(s) == s[|s| - |StripLeft(s)|..]
  {
    if s != [] && IsSpace(s[0]) {
      StripLeftIsSuffix(s[1..]);
    }
  }

  /** What `rstrip` keeps is a prefix of its input. */
  lemma {:induction false} StripRightIsPrefix(s: string)
    ensures StripRight(s) == s[..|StripRight(s)|]
  {
    if s != [] && IsSpace(s[|s| - 1]) {
      StripRightIsPrefix(s[..|s| - 1]);
    }
  }

  /** Stripping only removes characters: one absent from `s` is absent from its strip. */
  lemma StripKeepsOut(s: string, c: char)
    requires c !in s
    ensures c !in Strip(s)
  {
    StripLeftIsSuffix(s);
    StripRightIsPrefix(StripLeft(s));
    assert forall i :: 0 <= i < |StripLeft(s)| ==> StripLeft(s)[i] == s[|s| - |StripLeft(s)| + i];
  }

  lemma {:induction false} StripLeftOfTrimmed(s: string)
    requires s == [] || !IsSpace(s[0])
    ensures StripLeft(s) == s
  {
  }

  lemma {:induction false} StripRightOfTrimmed(s: string)
    requires s == [] || !IsSpace(s[|s| - 1])
    ensures StripRight(s) == s
  {
  }

  /** `lstrip` removes a leading run of whitespace and nothing after it. */
  lemma {:induction false} StripLeftAfterSpace(ws: string, s: string)
    requires forall i :: 0 <= i < |ws| ==> IsSpace(ws[i])
    requires s == [] || !IsSpace(s[0])
    ensures StripLeft(ws + s) == s
    decreases |ws|
  {
    if ws == [] {
      assert ws + s == s;
    } else {
      assert (ws + s)[1..] == ws[1..] + s;
      StripLeftAfterSpace(ws[1..], s);
    }
  }

  /** `rstrip` keeps every character up to a non-whitespace one. */
  lemma {:induction false} StripRightKeeps(s: string, j: nat)
    requires j < |s| && !IsSpace(s[j])
    ensures j < |StripRight(s)|
    decreases |s|
  {
    if IsSpace(s[|s| - 1]) {
      StripRightKeeps(s[..|s| - 1], j);
    }
  }

  /** Stripping is idempotent: a stripped string is its own strip. */
  lemma StripTrimmed(s: string)
    requires Trimmed(s)
    ensures Strip(s) == s
  {
    StripLeftOfTrimmed(s);
    StripRightOfTrimmed(s);
  }

  lemma {:induction false} StripLeftEmptyIff(s: string)
    ensures StripLeft(s) == [] <==> forall i :: 0 <= i < |s| ==> IsSpace(s[i])
  {
    if s != [] && IsSpace(s[0]) {
      StripLeftEmptyIff(s[1..]);
      assert forall i :: 1 <= i < |s| ==> s[i] == s[1..][i - 1];
    }
  }

  lemma {:induction false} StripRightKeepsHead(s: string)
    requires s != [] && !IsSpace(s[0])
    ensures StripRight(s) != []
  {
    if IsSpace(s[|s| - 1]) {
      StripRightKeepsHead(s[..|s| - 1]);
    }
  }

  /** `s.strip()` is empty exactly when every character of `s` is whitespace. */
  lemma StripEmptyIff(s: string)
    ensures Strip(s) == [] <==> forall i :: 0 <= i < |s| ==> IsSpace(s[i])
  {
    StripLeftEmptyIff(s);
    if StripLeft(s) != [] {
      StripRightKeepsHead(StripLeft(s));
    }
  }

  // ---------------------------------------------------------------- facts about concatenation

  /** The two halves of a concatenation. */
  lemma SplitAt<T>(x: seq<T>, y: seq<T>)
    ensures (x + y)[..|x|] == x && (x + y)[|x|..] == y
  {
  }

  lemma ConcatAssoc<T>(a: seq<T>, b: seq<T>, c: seq<T>)
    ensures a + (b + c) == (a + b) + c
  {
  }

  /** A non-empty sequence is its front followed by its last element. */
  lemma FrontLast<T>(s: seq<T>)
    requires s != []
    ensures s == s[..|s| - 1] + [s[|s| - 1]]
  {
  }

  /** The prefix of length `i + 1`: the prefix of length `i`, then the element at `i`. */
  lemma PrefixStep<T>(s: seq<T>, i: nat)
    requires i < |s|
    ensures |s[..i + 1]| == i + 1 && s[..i + 1][..i] == s[..i] && s[..i + 1][i] == s[i]
  {
  }

  /** A prefix shorter than the left part of a concatenation lies in that part. */
  lemma PrefixWithin<T>(x: seq<T>, y: seq<T>, b: nat)
    requires b < |x|
    ensures (x + y)[..b] == x[..b] && (x + y)[b] == x[b]
  {}

  /** `x + (sep + y)` cut around its separator. */
  lemma SplitAround<T>(x: seq<T>, sep: seq<T>, y: seq<T>)
    ensures (x + (sep + y))[..|x|] == x
    ensures (x + (sep + y))[|x| + |sep|..] == y
    ensures forall i :: 0 <= i < |sep| ==> (x + (sep + y))[|x| + i] == sep[i]
  {
  }

  /** Dropping a prefix of the left part of a concatenation. */
  lemma DropWithin<T>(x: seq<T>, y: seq<T>, k: nat)
    requires k <= |x|
    ensures (x + y)[k..] == x[k..] + y
  {}

  /** Dropping the first element of a concatenation whose left part is not empty. */
  lemma DropFirst<T>(x: seq<T>, y: seq<T>)
    requires x != []
    ensures (x + y)[1..] == x[1..] + y
  {
  }

  // ---------------------------------------------------------------- runs of a character class

  /** How many leading characters of `s` are in the class: a greedy `[...]*`. */
  function Span(s: string, inClass: char -> bool): (n: nat)
    ensures n <= |s|
    decreases |s|
  {
    if s != [] && inClass(s[0]) then 1 + Span(s[1..], inClass) else 0
  }

  lemma {:induction false} SpanSpec(s: string, inClass: char -> bool)
    ensures forall i :: 0 <= i < Span(s, inClass) ==> inClass(s[i])
    ensures Span(s, inClass) < |s| ==> !inClass(s[Span(s, inClass)])
    decreases |s|
  {
    if s != [] && inClass(s[0]) {
      SpanSpec(s[1..], inClass);
    }
  }

  /** A run of class characters followed by one outside the class (or nothing) spans exactly the run. */
  lemma {:induction false} SpanOf(x: string, y: string, inClass: char -> bool)
    requires forall i :: 0 <= i < |x| ==> inClass(x[i])
    requires y == [] || !inClass(y[0])
    ensures Span(x + y, inClass) == |x|
    decreases |x|
  {
    if x == [] {
      assert x + y == y;
    } else {
      assert (x + y)[1..] == x[1..] + y;
      SpanOf(x[1..], y, inClass);
    }
  }

  /** A run that stops inside `x` stops at the same place whatever follows `x`. */
  lemma SpanStable(x: string, y: string, inClass: char -> bool, q: nat)
    requires q < |x| && !inClass(x[q])
    ensures Span(x, inClass) <= q
    ensures Span(x + y, inClass) == Span(x, inClass)
  {
    SpanSpec(x, inClass);
    var a := Span(x, inClass);
    assert x + y == x[..a] + (x[a..] + y);
    SpanOf(x[..a], x[a..] + y, inClass);
  }

  // ---------------------------------------------------------------- slicing and repetition

  /** `s[k:]` for k >= 0: Python clamps an index past the end to the empty string. */
  function Drop(s: string, k: nat): string {
    if k <= |s| then s[k..] else []
  }

  /** `p * n`: empty when n <= 0. */
  function Repeat(p: string, n: int): (r: string)
    ensures |r| == if n <= 0 then 0 else |p| * n
    decreases if n <= 0 then 0 else n
  {
    if n <= 0 then [] else p + Repeat(p, n - 1)
  }

  /** A character that is not in `p` is not in `p * n`. */
  lemma {:induction false} RepeatAvoids(p: string, n: int, c: char)
    requires c !in p
    ensures c !in Repeat(p, n)
    decreases if n <= 0 then 0 else n
  {
    if n > 0 {
      RepeatAvoids(p, n - 1, c);
    }
  }

  // ---------------------------------------------------------------- split on a separator

  /** `s.split(sep)` for a non-empty separator: non-overlapping, left to right. */
  function Split(s: string, sep: string): (r: seq<string>)
    requires |sep| > 0
    ensures |r| >= 1
    decreases |s|
  {
    match Find(s, sep)
    case None => [s]
    case Some(i) => [s[..i]] + Split(s[i + |sep|..], sep)
  }

  /** `sep.join(parts)`. */
  function Join(parts: seq<string>, sep: string): string {
    if parts == [] then []
    else if |parts| == 1 then parts[0]
    else parts[0] + sep + Join(parts[1..], sep)
  }

  /** A join starts with its first part. */
  lemma JoinHead(parts: seq<string>, sep: string)
    requires parts != []
    ensures StartsWith(Join(parts, sep), parts[0])
  {
    if |parts| > 1 {
      assert Join(parts, sep)[..|parts[0]|] == parts[0];
    }
  }

  lemma JoinCons(a: string, ps: seq<string>, sep: string)
    requires ps != []
    ensures Join([a] + ps, sep) == a + sep + Join(ps, sep)
  {
    assert ([a] + ps)[1..] == ps;
  }

  /** Joining two non-empty lists one after the other puts one separator between their joins. */
  lemma {:induction false} JoinAppend(x: seq<string>, y: seq<string>, sep: string)
    requires x != [] && y != []
    ensures Join(x + y, sep) == Join(x, sep) + sep + Join(y, sep)
    decreases |x|
  {
    assert x + y == [x[0]] + (x[1..] + y) by {
      assert x == [x[0]] + x[1..];
      ConcatAssoc([x[0]], x[1..], y);
    }
    JoinCons(x[0], x[1..] + y, sep);
    if |x| > 1 {
      JoinAppend(x[1..], y, sep);
      assert x == [x[0]] + x[1..];
      JoinCons(x[0], x[1..], sep);
      var h := x[0] + sep;
      ConcatAssoc(h, Join(x[1..], sep) + sep, Join(y, sep));
      ConcatAssoc(h, Join(x[1..], sep), sep);
    }
  }

  lemma SliceAround(s: string, sep: string, i: nat)
    requires OccursAt(s, sep, i)
    ensures s == s[..i] + sep + s[i + |sep|..]
  {
    assert s[i..] == s[i..i + |sep|] + s[i + |sep|..];
    assert s == s[..i] + s[i..];
  }

  /** Joining the pieces of a split gives the string back. */
  lemma {:induction false} JoinSplit(s: string, sep: string)
    requires |sep| > 0
    ensures Join(Split(s, sep), sep) == s
    decreases |s|
  {
    var f := Find(s, sep);
    if f.Some? {
      var i := f.value;
      var rest := s[i + |sep|..];
      JoinSplit(rest, sep);
      JoinCons(s[..i], Split(rest, sep), sep);
      SliceAround(s, sep, i);
    }
  }

  /** Splitting `a c b` on a character `c` that occurs in neither part gives the two parts. */
  lemma SplitPair(a: string, b: string, c: char)
    requires c !in a && c !in b
    ensures Split(a + [c] + b, [c]) == [a, b]
  {
    var s := a + [c] + b;
    assert OccursAt(s, [c], |a|);
    forall j | 0 <= j < |a|
      ensures !OccursAt(s, [c], j)
    {
      assert s[j] == a[j];
    }
    assert Find(s, [c]) == Some(|a|);
    assert s[..|a|] == a && s[|a| + 1..] == b;
    forall j | 0 <= j < |b|
      ensures !OccursAt(b, [c], j)
    {
      assert b[j] != c;
    }
  }

  /** No piece of a split contains the separator. */
  lemma {:induction false} SplitPiecesAvoidSep(s: string, sep: string)
    requires |sep| > 0
    ensures forall k :: 0 <= k < |Split(s, sep)| ==> !Contains(Split(s, sep)[k], sep)
    decreases |s|
  {
    match Find(s, sep)
    case None =>
    case Some(i) =>
      SplitPiecesAvoidSep(s[i + |sep|..], sep);
      var head := s[..i];
      forall j | OccursAt(head, sep, j) ensures false {
        assert s[j..j + |sep|] == head[j..j + |sep|];
        assert OccursAt(s, sep, j);
      }
  }

  // ---------------------------------------------------------------- split on whitespace

  /** Length of the run of non-whitespace characters at the start of `s`. */
  function WordLen(s: string): (n: nat)
    ensures n <= |s|
  {
    if s == [] || IsSpace(s[0]) then 0 else 1 + WordLen(s[1..])
  }

  lemma {:induction false} WordLenSpec(s: string)
    ensures NoSpace(s[..WordLen(s)])
    ensures WordLen(s) < |s| ==> IsSpace(s[WordLen(s)])
  {
    if s != [] && !IsSpace(s[0]) {
      WordLenSpec(s[1..]);
      assert s[..WordLen(s)] == [s[0]] + s[1..][..WordLen(s[1..])];
    }
  }

  /** `s.split()`: the maximal runs of non-whitespace characters, in order. */
  function SplitWs(s: string): seq<string>
    decreases |s|
  {
    if s == [] then []
    else if IsSpace(s[0]) then SplitWs(s[1..])
    else
      var n := WordLen(s);
      [s[..n]] + SplitWs(s[n..])
  }

  /** The tokens of `s.split()` are non-empty and free of whitespace. */
  lemma {:induction false} SplitWsTokens(s: string)
    ensures forall k :: 0 <= k < |SplitWs(s)| ==> SplitWs(s)[k] != [] && NoSpace(SplitWs(s)[k])
    decreases |s|
  {
    if s == [] {
    } else if IsSpace(s[0]) {
      SplitWsTokens(s[1..]);
    } else {
      var n := WordLen(s);
      WordLenSpec(s);
      SplitWsTokens(s[n..]);
    }
  }

  /** Joining whitespace-free, non-empty tokens with single spaces gives a trimmed string. */
  lemma {:induction false} JoinTokensTrimmed(ts: seq<string>)
    requires forall k :: 0 <= k < |ts| ==> ts[k] != [] && NoSpace(ts[k])
    ensures Trimmed(Join(ts, " "))
    ensures ts != [] ==> Join(ts, " ") != []
  {
    if |ts| > 1 {
      JoinTokensTrimmed(ts[1..]);
      var j := Join(ts[1..], " ");
      assert Join(ts, " ") == ts[0] + " " + j;
    }
  }

  // ---------------------------------------------------------------- double dashes

  /** `s` holds no "--". */
  predicate NoDoubleDash(s: string) {
    forall i :: 0 <= i < |s| - 1 ==> !(s[i] == '-' && s[i + 1] == '-')
  }

  lemma NoDoubleDashFromContains(s: string)
    requires !Contains(s, "--")
    ensures NoDoubleDash(s)
  {
    forall i | 0 <= i < |s| - 1 ensures !(s[i] == '-' && s[i + 1] == '-') {
      assert !OccursAt(s, "--", i);
      assert s[i..i + 2] == [s[i], s[i + 1]];
    }
  }

  /** The tokens of `s.split()` are pieces of `s`, so they inherit "no --". */
  lemma {:induction false} SplitWsNoDoubleDash(s: string)
    requires NoDoubleDash(s)
    ensures forall k :: 0 <= k < |SplitWs(s)| ==> NoDoubleDash(SplitWs(s)[k])
    decreases |s|
  {
    if s == [] {
    } else if IsSpace(s[0]) {
      SplitWsNoDoubleDash(s[1..]);
    } else {
      var n := WordLen(s);
      SplitWsNoDoubleDash(s[n..]);
    }
  }

  /** Joining tokens free of "--" and of spaces with single spaces creates no "--". */
  lemma {:induction false} JoinNoDoubleDash(ts: seq<string>)
    requires forall k :: 0 <= k < |ts| ==> NoDoubleDash(ts[k])
    ensures NoDoubleDash(Join(ts, " "))
  {
    if |ts| > 1 {
      JoinNoDoubleDash(ts[1..]);
      var j := Join(ts[1..], " ");
      var s := Join(ts, " ");
      assert s == ts[0] + " " + j;
      forall i | 0 <= i < |s| - 1 ensures !(s[i] == '-' && s[i + 1] == '-') {
        if i + 1 < |ts[0]| {
          assert s[i] == ts[0][i] && s[i + 1] == ts[0][i + 1];
        } else if i + 1 == |ts[0]| || i == |ts[0]| {
          assert s[|ts[0]|] == ' ';
        } else {
          assert s[i] == j[i - |ts[0]| - 1] && s[i + 1] == j[i - |ts[0]|];
        }
      }
    }
  }

  // ---------------------------------------------------------------- replace

  /** `s.replace(old, new)` for a non-empty `old`: non-overlapping, left to right. */
  function Replace(s: string, pat: string, rep: string): string
    requires |pat| > 0
    decreases |s|
  {
    if StartsWith(s, pat) then rep + Replace(s[|pat|..], pat, rep)
    else if s == [] then []
    else [s[0]] + Replace(s[1..], pat, rep)
  }

  /** Replacing text that does not occur leaves the string as it was. */
  lemma {:induction false} ReplaceAbsent(s: string, pat: string, rep: string)
    requires |pat| > 0 && !Contains(s, pat)
    ensures Replace(s, pat, rep) == s
    decreases |s|
  {
    assert !OccursAt(s, pat, 0);
    if s != [] {
      forall j | OccursAt(s[1..], pat, j) ensures false {
        assert s[j + 1..j + 1 + |pat|] == s[1..][j..j + |pat|];
        assert OccursAt(s, pat, j + 1);
      }
      ReplaceAbsent(s[1..], pat, rep);
    }
  }

  /** `s.replace(c, '')` for one character leaves no `c` behind. */
  lemma {:induction false} RemoveCharGone(s: string, c: char)
    ensures c !in Replace(s, [c], [])
    decreases |s|
  {
    if s != [] {
      RemoveCharGone(s[1..], c);
    }
  }

  /** `s.replace(c, '')` leaves no `c` behind, and changes nothing when there was none. */
  lemma RemoveCharSpec(s: string, c: char)
    ensures c !in Replace(s, [c], [])
    ensures c !in s ==> Replace(s, [c], []) == s
  {
    RemoveCharGone(s, c);
    if c !in s {
      RemoveCharAbsent(s, c);
    }
  }

  /** Removing one character commutes with concatenation. */
  lemma {:induction false} RemoveCharAppend(a: string, b: string, c: char)
    ensures Replace(a + b, [c], []) == Replace(a, [c], []) + Replace(b, [c], [])
    decreases |a|
  {
    if a == [] {
      assert a + b == b;
    } else {
      assert (a + b)[0] == a[0] && (a + b)[1..] == a[1..] + b;
      RemoveCharAppend(a[1..], b, c);
    }
  }

  /** Removing a character that does not occur leaves the string as it was. */
  lemma {:induction false} RemoveCharAbsent(s: string, c: char)
    requires c !in s
    ensures Replace(s, [c], []) == s
    decreases |s|
  {
    if s != [] {
      RemoveCharAbsent(s[1..], c);
    }
  }
}
