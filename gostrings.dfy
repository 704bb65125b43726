/** The string helpers of Go's standard library that the engine relies on:
    strings.HasPrefix, strings.Contains, strings.Split, strings.TrimSpace,
    unicode.IsSpace, string ordering and sort.Strings; and Go's byte
    length and byte slicing of strings, which count UTF-8 bytes. */
module GoStrings {
  import opened Types

  /** strings.HasPrefix. */
  predicate HasPrefix(s: string, prefix: string) {
    |prefix| <= |s| && s[..|prefix|] == prefix
  }

  /** strings.Contains: `sub` occurs somewhere in `s`. */
  predicate Contains(s: string, sub: string)
    decreases |s|
  {
    HasPrefix(s, sub) || (|s| > 0 && Contains(s[1..], sub))
  }

  /** `sub` occurs in `s` at offset `i`. */
  predicate OccursAt(s: string, sub: string, i: int) {
    0 <= i <= |s| - |sub| && s[i..i + |sub|] == sub
  }

  /** Contains finds exactly the occurrences at some offset. */
  lemma {:induction false} ContainsAt(s: string, sub: string)
    ensures Contains(s, sub) <==> exists i :: OccursAt(s, sub, i)
    decreases |s|
  {
    if HasPrefix(s, sub) {
      assert OccursAt(s, sub, 0);
    } else if |s| > 0 {
      ContainsAt(s[1..], sub);
      if Contains(s[1..], sub) {
        var i :| OccursAt(s[1..], sub, i);
        assert OccursAt(s, sub, i + 1);
      }
      if exists i :: OccursAt(s, sub, i) {
        var i :| OccursAt(s, sub, i);
        assert OccursAt(s[1..], sub, i - 1);
      }
    }
  }

  /** The index of the first `c` in `s`, or -1. */
  function IndexOf(s: string, c: char): (i: int)
    ensures -1 <= i < |s|
    ensures i >= 0 ==> s[i] == c && c !in s[..i]
    ensures i == -1 ==> c !in s
    decreases |s|
  {
    if |s| == 0 then -1
    else if s[0] == c then 0
    else var j := IndexOf(s[1..], c); if j < 0 then -1 else j + 1
  }

  /** strings.Split with a one-character separator: the pieces between the
      separators, one more piece than there are separators. */
  function Split(s: string, sep: char): (r: seq<string>)
    ensures |r| >= 1
    ensures forall i :: 0 <= i < |r| ==> sep !in r[i]
    decreases |s|
  {
    var i := IndexOf(s, sep);
    if i < 0 then [s] else [s[..i]] + Split(s[i + 1..], sep)
  }

  /** strings.Join with a one-character separator. */
  function Join(parts: seq<string>, sep: char): string
    decreases |parts|
  {
    if |parts| == 0 then ""
    else if |parts| == 1 then parts[0]
    else parts[0] + [sep] + Join(parts[1..], sep)
  }

  /** Joining the pieces of a split gives back the original string. */
  lemma {:induction false} JoinSplit(s: string, sep: char)
    ensures Join(Split(s, sep), sep) == s
    decreases |s|
  {
    var i := IndexOf(s, sep);
    if i >= 0 {
      var rest := Split(s[i + 1..], sep);
      JoinSplit(s[i + 1..], sep);
      JoinCons(s[..i], rest, sep);
      AroundSeparator(s, i, sep);
    } else {
      assert Split(s, sep) == [s];
    }
  }

  /** Join of a first piece followed by at least one more. */
  lemma {:induction false} JoinCons(p: string, rest: seq<string>, sep: char)
    requires |rest| >= 1
    ensures Join([p] + rest, sep) == p + [sep] + Join(rest, sep)
  {
    assert ([p] + rest)[0] == p && ([p] + rest)[1..] == rest;
  }

  /** A string is the text before index `i`, the character at `i`, and the
      text after it. */
  lemma {:induction false} AroundSeparator(s: string, i: nat, sep: char)
    requires i < |s| && s[i] == sep
    ensures s == s[..i] + [sep] + s[i + 1..]
  {
    assert s[..i + 1] == s[..i] + [sep];
    assert s == s[..i + 1] + s[i + 1..];
  }

  /** Splitting a join of separator-free pieces gives back the pieces. */
  lemma {:induction false} SplitJoin(parts: seq<string>, sep: char)
    requires |parts| >= 1
    requires forall i :: 0 <= i < |parts| ==> sep !in parts[i]
    ensures Split(Join(parts, sep), sep) == parts
    decreases |parts|
  {
    if |parts| > 1 {
      var s := Join(parts, sep);
      assert s == parts[0] + [sep] + Join(parts[1..], sep);
      IndexAfterSeparatorFree(parts[0], sep, Join(parts[1..], sep));
      assert s[..|parts[0]|] == parts[0];
      assert s[|parts[0]| + 1..] == Join(parts[1..], sep);
      SplitJoin(parts[1..], sep);
    } else {
      assert IndexOf(parts[0], sep) == -1;
    }
  }

  lemma {:induction false} IndexAfterSeparatorFree(a: string, sep: char, b: string)
    requires sep !in a
    ensures IndexOf(a + [sep] + b, sep) == |a|
    decreases |a|
  {
    if |a| > 0 {
      assert (a + [sep] + b)[1..] == a[1..] + [sep] + b;
      IndexAfterSeparatorFree(a[1..], sep, b);
    }
  }

  /** unicode.IsSpace: the Unicode White_Space characters. */
  predicate IsSpace(c: char) {
    var n := c as int;
    n in {0x09, 0x0A, 0x0B, 0x0C, 0x0D, 0x20, 0x85, 0xA0, 0x1680, 0x2028, 0x2029, 0x202F, 0x205F, 0x3000}
    || 0x2000 <= n <= 0x200A
  }

  function TrimLeft(s: string): (r: string)
    ensures |r| <= |s| && r == s[|s| - |r|..]
    ensures forall i :: 0 <= i < |s| - |r| ==> IsSpace(s[i])
    ensures r == [] || !IsSpace(r[0])
    decreases |s|
  {
    if |s| > 0 && IsSpace(s[0]) then TrimLeft(s[1..]) else s
  }

  function TrimRight(s: string): (r: string)
    ensures |r| <= |s| && r == s[..|r|]
    ensures forall i :: |r| <= i < |s| ==> IsSpace(s[i])
    ensures r == [] || !IsSpace(r[|r| - 1])
    decreases |s|
  {
    if |s| > 0 && IsSpace(s[|s| - 1]) then TrimRight(s[..|s| - 1]) else s
  }

  /** strings.TrimSpace. */
  function TrimSpace(s: string): string {
    TrimRight(TrimLeft(s))
  }

  /** A string trims to "" exactly when every character in it is white space. */
  lemma TrimSpaceEmpty(s: string)
    ensures TrimSpace(s) == "" <==> forall i :: 0 <= i < |s| ==> IsSpace(s[i])
  {
    var l := TrimLeft(s);
    assert |l| > 0 ==> l[0] == s[|s| - |l|];
    assert forall i :: |s| - |l| <= i < |s| ==> s[i] == l[i - (|s| - |l|)];
  }

  /** Go's string order: byte-wise on UTF-8, which is code-point order. */
  predicate LessEq(a: string, b: string)
    decreases |a|
  {
    |a| == 0 || (|b| > 0 && (a[0] < b[0] || (a[0] == b[0] && LessEq(a[1..], b[1..]))))
  }

  lemma {:induction false} LessEqTotal(a: string, b: string)
    ensures LessEq(a, b) || LessEq(b, a)
    decreases |a|
  {
    if |a| > 0 && |b| > 0 && a[0] == b[0] {
      LessEqTotal(a[1..], b[1..]);
    }
  }

  lemma {:induction false} LessEqTrans(a: string, b: string, c: string)
    requires LessEq(a, b) && LessEq(b, c)
    ensures LessEq(a, c)
    decreases |a|
  {
    if |a| > 0 && a[0] == b[0] && b[0] == c[0] {
      LessEqTrans(a[1..], b[1..], c[1..]);
    }
  }

  lemma {:induction false} LessEqAntisym(a: string, b: string)
    requires LessEq(a, b) && LessEq(b, a)
    ensures a == b
    decreases |a|
  {
    if |a| > 0 {
      LessEqAntisym(a[1..], b[1..]);
      assert a == [a[0]] + a[1..] && b == [b[0]] + b[1..];
    }
  }

  predicate Sorted(s: seq<string>) {
    forall i, j :: 0 <= i < j < |s| ==> LessEq(s[i], s[j])
  }

  /** sort.Strings: an ordered permutation of the input. */
  method SortStrings(a: seq<string>) returns (r: seq<string>)
    ensures Sorted(r)
    ensures multiset(r) == multiset(a)
  {
    r := [];
    for k := 0 to |a|
      invariant Sorted(r)
      invariant multiset(r) == multiset(a[..k])
    {
      r := Insert(r, a[k]);
      assert a[..k + 1] == a[..k] + [a[k]];
    }
    assert a[..|a|] == a;
  }

  /** There is only one ordering of a collection of strings: whatever order
      the elements arrive in, sorting them gives the same sequence. */
  lemma {:induction false} SortedUnique(a: seq<string>, b: seq<string>)
    requires Sorted(a) && Sorted(b) && multiset(a) == multiset(b)
    ensures a == b
    decreases |a|
  {
    if |a| > 0 {
      assert a[0] in multiset(a);
      assert |b| > 0;
      assert b[0] in multiset(b);
      HeadLeast(a, b[0]);
      HeadLeast(b, a[0]);
      LessEqAntisym(a[0], b[0]);
      Tail(a);
      Tail(b);
      SortedUnique(a[1..], b[1..]);
    }
  }

  /** The head of a sorted sequence is below every element. */
  lemma HeadLeast(a: seq<string>, x: string)
    requires Sorted(a) && x in a
    ensures LessEq(a[0], x)
  {
    var i :| 0 <= i < |a| && a[i] == x;
    if i == 0 {
      LessEqTotal(x, x);
    }
  }

  lemma Tail(a: seq<string>)
    requires |a| > 0
    ensures Sorted(a) ==> Sorted(a[1..])
    ensures multiset(a[1..]) == multiset(a) - multiset{a[0]}
  {
    assert a == [a[0]] + a[1..];
  }

  /** The least string of a non-empty set. */
  ghost function Least(s: set<string>): (m: string)
    requires s != {}
    ensures m in s && forall x :: x in s ==> LessEq(m, x)
    decreases |s|
  {
    var x :| x in s;
    LessEqTotal(x, x);
    if s == {x} then x
    else
      var m := Least(s - {x});
      LeastOfTwo(s, x, m);
      if LessEq(x, m) then x else m
  }

  lemma LeastOfTwo(s: set<string>, x: string, m: string)
    requires x in s && m in s - {x} && forall y :: y in s - {x} ==> LessEq(m, y)
    requires LessEq(x, x)
    ensures LessEq(x, m) ==> forall y :: y in s ==> LessEq(x, y)
    ensures !LessEq(x, m) ==> forall y :: y in s ==> LessEq(m, y)
  {
    LessEqTotal(x, m);
    forall y | y in s
      ensures LessEq(x, m) ==> LessEq(x, y)
      ensures !LessEq(x, m) ==> LessEq(m, y)
    {
      if y != x && LessEq(x, m) {
        LessEqTrans(x, m, y);
      }
    }
  }

  /** The elements of a set of strings in ascending order. */
  ghost function SortedElems(s: set<string>): (r: seq<string>)
    ensures Sorted(r) && multiset(r) == multiset(s)
    decreases |s|
  {
    if s == {} then []
    else
      var m := Least(s);
      var rest := SortedElems(s - {m});
      ConsSorted(m, rest, s);
      [m] + rest
  }

  lemma ConsSorted(m: string, rest: seq<string>, s: set<string>)
    requires m in s && forall x :: x in s ==> LessEq(m, x)
    requires Sorted(rest) && multiset(rest) == multiset(s - {m})
    ensures Sorted([m] + rest) && multiset([m] + rest) == multiset(s)
  {
    assert multiset(s) == multiset{m} + multiset(s - {m});
    forall k | 0 <= k < |rest| ensures LessEq(m, rest[k]) {
      assert rest[k] in multiset(s - {m});
    }
    SortedCons(m, rest);
  }

  lemma SortedCons(m: string, rest: seq<string>)
    requires Sorted(rest) && forall k :: 0 <= k < |rest| ==> LessEq(m, rest[k])
    ensures Sorted([m] + rest)
  {
    var r := [m] + rest;
    forall i, j | 0 <= i < j < |r| ensures LessEq(r[i], r[j]) {
      assert r[j] == rest[j - 1];
      if i > 0 {
        assert r[i] == rest[i - 1];
      }
    }
  }

  /** Insert `x` into the sorted `s` after every element not above it. */
  method Insert(s: seq<string>, x: string) returns (r: seq<string>)
    requires Sorted(s)
    ensures Sorted(r)
    ensures multiset(r) == multiset(s) + multiset{x}
  {
    var j := 0;
    while j < |s| && LessEq(s[j], x)
      invariant 0 <= j <= |s|
      invariant forall k :: 0 <= k < j ==> LessEq(s[k], x)
    {
      j := j + 1;
    }
    if j < |s| {
      LessEqTotal(s[j], x);
      forall k | j <= k < |s| ensures LessEq(x, s[k]) {
        if k > j {
          LessEqTrans(x, s[j], s[k]);
        }
      }
    }
    r := s[..j] + [x] + s[j..];
    assert s == s[..j] + s[j..];
  }

  /** The number of bytes of the UTF-8 encoding of a character. */
  function Utf8Width(c: char): (w: nat)
    ensures 1 <= w <= 4
  {
    if c as int < 0x80 then 1
    else if c as int < 0x800 then 2
    else if c as int < 0x10000 then 3
    else 4
  }

  /** len(s) in Go: the number of bytes of the UTF-8 encoding of `s`. */
  function ByteLen(s: string): (n: nat)
    ensures |s| <= n <= 4 * |s|
  {
    if s == [] then 0 else Utf8Width(s[0]) + ByteLen(s[1..])
  }

  /** Byte lengths add up over concatenation. */
  lemma {:induction false} ByteLenConcat(a: string, b: string)
    ensures ByteLen(a + b) == ByteLen(a) + ByteLen(b)
    decreases |a|
  {
    if a != [] {
      assert (a + b)[1..] == a[1..] + b;
      ByteLenConcat(a[1..], b);
    } else {
      assert a + b == b;
    }
  }

  /** A longer prefix of a string has strictly more bytes. */
  lemma {:induction false} ByteLenPrefixMono(s: string, i: nat, j: nat)
    requires i < j <= |s|
    ensures ByteLen(s[..i]) < ByteLen(s[..j])
  {
    assert s[..j] == s[..i] + s[i..j];
    ByteLenConcat(s[..i], s[i..j]);
  }

  /** The character index at which the byte offset `k` of `s` falls between
      two characters, or None when `k` is inside a character's encoding or
      beyond the end; s[k:] in Go is then s[i..] for the index i found. */
  function CharOffset(s: string, k: nat): (r: Option<nat>)
    ensures r.Some? ==> r.value <= |s| && ByteLen(s[..r.value]) == k
    ensures r.None? ==> forall i :: 0 <= i <= |s| ==> ByteLen(s[..i]) != k
    decreases |s|
  {
    if k == 0 then Some(0)
    else if s == [] then None
    else if Utf8Width(s[0]) > k then
      CharOffsetTooFar(s, k);
      None
    else
      match CharOffset(s[1..], k - Utf8Width(s[0]))
      case None =>
        CharOffsetShift(s, k);
        None
      case Some(i) =>
        assert s[..i + 1] == [s[0]] + s[1..][..i];
        ByteLenConcat([s[0]], s[1..][..i]);
        Some(i + 1)
  }

  /** When the first character is wider than `k`, no prefix ends at `k`. */
  lemma {:induction false} CharOffsetTooFar(s: string, k: nat)
    requires s != [] && 0 < k < Utf8Width(s[0])
    ensures forall i :: 0 <= i <= |s| ==> ByteLen(s[..i]) != k
  {
    forall i | 0 <= i <= |s| ensures ByteLen(s[..i]) != k {
      if i > 0 {
        assert s[..i] == [s[0]] + s[1..i];
        ByteLenConcat([s[0]], s[1..i]);
      }
    }
  }

  /** A prefix of `s` ends at `k` only if a prefix of its tail ends at
      `k` less the first character's width. */
  lemma {:induction false} CharOffsetShift(s: string, k: nat)
    requires s != [] && 0 < k && Utf8Width(s[0]) <= k
    requires forall i :: 0 <= i <= |s| - 1 ==> ByteLen(s[1..][..i]) != k - Utf8Width(s[0])
    ensures forall i :: 0 <= i <= |s| ==> ByteLen(s[..i]) != k
  {
    forall i | 0 <= i <= |s| ensures ByteLen(s[..i]) != k {
      if i > 0 {
        assert s[..i] == [s[0]] + s[1..][..i - 1];
        ByteLenConcat([s[0]], s[1..][..i - 1]);
      }
    }
  }

  /** No prefix of a string has more bytes than the string. */
  lemma {:induction false} ByteLenPrefixBound(s: string)
    ensures forall i :: 0 <= i <= |s| ==> ByteLen(s[..i]) <= ByteLen(s)
  {
    forall i | 0 <= i <= |s| ensures ByteLen(s[..i]) <= ByteLen(s) {
      if i < |s| {
        ByteLenPrefixMono(s, i, |s|);
      }
      assert s[..|s|] == s;
    }
  }

  /** At most one character index of `s` lies at a given byte offset. */
  lemma {:induction false} CharOffsetUnique(s: string, i: nat, k: nat)
    requires i <= |s| && ByteLen(s[..i]) == k
    ensures forall j :: 0 <= j <= |s| && ByteLen(s[..j]) == k ==> j == i
  {
    forall j | 0 <= j <= |s| && ByteLen(s[..j]) == k ensures j == i {
      if j < i {
        ByteLenPrefixMono(s, j, i);
      } else if i < j {
        ByteLenPrefixMono(s, i, j);
      }
    }
  }
}
