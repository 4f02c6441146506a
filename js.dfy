/** The pieces of JavaScript's built-in behaviour that both variants of the
    application rely on, written out so that the models can use them exactly. */
module Js {

  datatype Option<+T> = None | Some(value: T) {
    /** `x || default` for a value that is either absent or truthy. */
    function GetOr(default: T): T {
      if Some? then value else default
    }
  }

  /** A decision reported to the user (a thrown Error's message or an error
      label's text), or success. */
  datatype Outcome = Pass | Fail(message: string)

  // ---------------------------------------------------------------- numbers

  /** JavaScript's `%`: it truncates, so the remainder takes the sign of the
      dividend (Dafny's `%` is Euclidean and never negative). */
  function Rem(a: int, b: int): (r: int)
    requires b > 0
    ensures -b < r < b
    ensures a >= 0 ==> 0 <= r && r == a % b
    ensures a < 0 ==> r <= 0
    ensures (a - r) % b == 0
  {
    RemDifference(a, b);
    if a >= 0 then a % b else -((-a) % b)
  }

  /** Either way, the truncated remainder differs from the dividend by a
      multiple of the divisor. */
  lemma RemDifference(a: int, b: int)
    requires b > 0
    ensures a >= 0 ==> (a - a % b) % b == 0
    ensures a < 0 ==> (a + (-a) % b) % b == 0
  {
    if a >= 0 {
      var q := a / b;
      assert a - a % b == q * b;
      MultipleOfDivisor(q, b);
    } else {
      var m := -a;
      var q := m / b;
      assert m - m % b == q * b;
      NegatedMultiple(q, b);
      MultipleOfDivisor(-q, b);
    }
  }

  lemma NegatedMultiple(q: int, b: int)
    ensures -(q * b) == (-q) * b
  {
  }

  /** A multiple of `b` leaves no remainder. */
  lemma MultipleOfDivisor(k: int, b: int)
    requires b > 0
    ensures (k * b) % b == 0
  {
    DivModUnique(k * b, b, k, 0);
  }

  /** Euclidean division is determined by quotient and remainder. */
  lemma DivModUnique(a: int, b: int, q: int, r: int)
    requires b > 0 && 0 <= r < b && a == q * b + r
    ensures a / b == q && a % b == r
  {
    var q', r' := a / b, a % b;
    assert a == q' * b + r';
    assert (q - q') * b == r' - r;
    if q > q' {
      assert (q - q') * b >= b by { MulMono(q - q', b); }
    } else if q < q' {
      assert (q' - q) * b >= b by { MulMono(q' - q, b); }
    }
  }

  lemma MulMono(k: int, b: int)
    requires k >= 1 && b > 0
    ensures k * b >= b
  {
  }

  /** The character for digit `d` as Number.prototype.toString writes it. */
  function DigitChar(d: nat): (c: char)
    requires d < 36
  {
    if d < 10 then ('0' as int + d) as char else ('a' as int + d - 10) as char
  }

  /** The value of a digit as parseInt reads it in a radix up to 36 (any
      other character reads as 0). */
  function DigitValue(c: char): (v: nat)
    ensures v < 36
  {
    if '0' <= c <= '9' then c as int - '0' as int
    else if 'a' <= c <= 'z' then c as int - 'a' as int + 10
    else 0
  }

  /** `c` is a digit of base `radix` as toString writes them. */
  predicate IsDigit(c: char, radix: nat) {
    ('0' <= c <= '9' || 'a' <= c <= 'z') && DigitValue(c) < radix
  }

  lemma DigitCharValue(d: nat, radix: nat)
    requires d < radix <= 36
    ensures IsDigit(DigitChar(d), radix) && DigitValue(DigitChar(d)) == d
  {
  }

  /** The number a string of digits denotes in base `radix`, most significant first. */
  function DigitsValue(s: string, radix: nat): nat {
    if s == [] then 0 else DigitsValue(s[..|s| - 1], radix) * radix + DigitValue(s[|s| - 1])
  }

  /** One more digit at the end multiplies the value by the radix and adds the digit. */
  lemma DigitsValueAppend(s: string, c: char, radix: nat)
    ensures DigitsValue(s + [c], radix) == DigitsValue(s, radix) * radix + DigitValue(c)
  {
    assert (s + [c])[..|s|] == s;
  }

  /** The value of a lower-case hexadecimal digit (any other character reads as 0). */
  function HexDigitValue(c: char): (v: nat)
    ensures v < 16
  {
    if IsLowerHexDigit(c) then DigitValue(c) else 0
  }

  predicate IsLowerHexDigit(c: char) {
    '0' <= c <= '9' || 'a' <= c <= 'f'
  }

  lemma DigitCharHex(d: nat)
    requires d < 16
    ensures IsLowerHexDigit(DigitChar(d)) && HexDigitValue(DigitChar(d)) == d
  {
  }

  /** The digits of `n` in base `radix`, most significant first, no leading zeros. */
  function NatToString(n: nat, radix: nat): (s: string)
    requires 2 <= radix <= 36
    ensures |s| >= 1
    ensures n < radix <==> |s| == 1
    ensures n < radix ==> s == [DigitChar(n)]
    decreases n
  {
    if n < radix then [DigitChar(n)]
    else NatToString(n / radix, radix) + [DigitChar(n % radix)]
  }

  /** toString(radix) writes digits of that radix, without a leading zero,
      that read back as the number. */
  lemma {:induction false} NatToStringReadsBack(n: nat, radix: nat)
    requires 2 <= radix <= 36
    ensures forall k :: 0 <= k < |NatToString(n, radix)| ==> IsDigit(NatToString(n, radix)[k], radix)
    ensures DigitsValue(NatToString(n, radix), radix) == n
    ensures n > 0 ==> NatToString(n, radix)[0] != '0'
    decreases n
  {
    if n < radix {
      DigitCharValue(n, radix);
    } else {
      var q, d := n / radix, n % radix;
      var high := NatToString(q, radix);
      DivLess(n, radix);
      NatToStringReadsBack(q, radix);
      DigitCharValue(d, radix);
      DigitsValueAppend(high, DigitChar(d), radix);
      Recombine(DigitsValue(high, radix), n, radix);
      assert NatToString(n, radix) == high + [DigitChar(d)];
    }
  }

  lemma DivLess(n: nat, radix: nat)
    requires n >= radix >= 2
    ensures 0 < n / radix < n
  {
  }

  /** The quotient and remainder put back together give the number. */
  lemma Recombine(v: nat, n: nat, radix: nat)
    requires radix > 0 && v == n / radix
    ensures v * radix + n % radix == n
  {
  }

  /** Number.prototype.toString(radix) on an integer. */
  function IntToString(n: int, radix: nat): string
    requires 2 <= radix <= 36
  {
    if n < 0 then "-" + NatToString(-n, radix) else NatToString(n, radix)
  }

  /** String.prototype.padStart with a one-character filler. */
  function PadStart(s: string, targetLength: nat, filler: char): (r: string)
    ensures |r| >= targetLength && |r| >= |s|
    ensures |s| >= targetLength ==> r == s
    ensures |s| < targetLength ==> |r| == targetLength
    ensures r[|r| - |s|..] == s
    ensures forall i :: 0 <= i < |r| - |s| ==> r[i] == filler
  {
    if |s| >= targetLength then s else seq(targetLength - |s|, _ => filler) + s
  }

  // ---------------------------------------------------------------- strings

  /** The characters String.prototype.trim removes: WhiteSpace (tab, vertical
      tab, form feed, space, no-break space, byte order mark and the Unicode
      space separators) and LineTerminator. */
  predicate IsWhiteSpace(c: char) {
    || c == '\t' || c == '\U{000B}' || c == '\U{000C}' || c == ' '
    || c == '\U{00A0}' || c == '\U{FEFF}'
    || c == '\U{1680}' || ('\U{2000}' <= c <= '\U{200A}')
    || c == '\U{202F}' || c == '\U{205F}' || c == '\U{3000}'
    || c == '\n' || c == '\r' || c == '\U{2028}' || c == '\U{2029}'
  }

  predicate AllWhiteSpace(s: string) {
    forall i :: 0 <= i < |s| ==> IsWhiteSpace(s[i])
  }

  function TrimStart(s: string): (r: string)
    ensures |r| <= |s| && r == s[|s| - |r|..]
    ensures r == [] || !IsWhiteSpace(r[0])
    ensures AllWhiteSpace(s[..|s| - |r|])
  {
    if s != [] && IsWhiteSpace(s[0]) then
      var tail := s[1..];
      var r := TrimStart(tail);
      assert tail[|tail| - |r|..] == s[|s| - |r|..];
      assert forall i :: 1 <= i < |s| - |r| ==> s[i] == tail[..|tail| - |r|][i - 1];
      r
    else s
  }

  function TrimEnd(s: string): (r: string)
    ensures |r| <= |s| && r == s[..|r|]
    ensures r == [] || !IsWhiteSpace(r[|r| - 1])
    ensures AllWhiteSpace(s[|r|..])
  {
    if s != [] && IsWhiteSpace(s[|s| - 1]) then
      var init := s[..|s| - 1];
      var r := TrimEnd(init);
      assert init[..|r|] == s[..|r|];
      assert forall i :: |r| <= i < |s| - 1 ==> s[i] == init[|r|..][i - |r|];
      r
    else s
  }

  /** String.prototype.trim: the part of `s` left between a white-space
      prefix and a white-space suffix. */
  function Trim(s: string): (r: string)
    ensures r == [] || (!IsWhiteSpace(r[0]) && !IsWhiteSpace(r[|r| - 1]))
    ensures exists i :: TrimmedAt(s, r, i)
  {
    var t := TrimStart(s);
    var r := TrimEnd(t);
    TrimmedBetween(s, t, r);
    r
  }

  /** A white-space prefix of `s` leaves `t`, and a white-space suffix of `t`
      leaves `r`: then `r` sits in `s` where `t` starts. */
  lemma TrimmedBetween(s: string, t: string, r: string)
    requires |t| <= |s| && t == s[|s| - |t|..] && AllWhiteSpace(s[..|s| - |t|])
    requires t == [] || !IsWhiteSpace(t[0])
    requires |r| <= |t| && r == t[..|r|] && AllWhiteSpace(t[|r|..])
    requires r == [] || !IsWhiteSpace(r[|r| - 1])
    ensures r == [] || (!IsWhiteSpace(r[0]) && !IsWhiteSpace(r[|r| - 1]))
    ensures TrimmedAt(s, r, |s| - |t|)
  {
    var i := |s| - |t|;
    assert r == s[i..][..|r|];
    assert s[i + |r|..] == s[i..][|r|..];
  }

  /** `r` sits at position `i` of `s` with only white space around it. */
  predicate TrimmedAt(s: string, r: string, i: int) {
    && 0 <= i <= |s| - |r|
    && r == s[i..i + |r|]
    && AllWhiteSpace(s[..i])
    && AllWhiteSpace(s[i + |r|..])
  }

  /** Trimming leaves nothing exactly when every character is white space. */
  lemma TrimEmptyIff(s: string)
    ensures Trim(s) == [] <==> AllWhiteSpace(s)
  {
    var t := TrimStart(s);
    if Trim(s) == [] {
      assert s[..|s|] == s;
    } else if t != [] {
      assert t[0] == s[|s| - |t|];
    }
  }

  // --------------------------------------------------------- sets, arrays

  predicate Distinct<T(==)>(s: seq<T>) {
    forall i, j :: 0 <= i < j < |s| ==> s[i] != s[j]
  }

  /** Set.prototype.add, on a set kept as its elements in insertion order. */
  function SetAdd<T(==,!new)>(s: seq<T>, x: T): (r: seq<T>)
    ensures x in r
    ensures forall y :: y in r <==> y in s || y == x
    ensures x in s ==> r == s
    ensures x !in s ==> r == s + [x]
    ensures Distinct(s) ==> Distinct(r)
  {
    if x in s then s else s + [x]
  }

  /** Adds the elements of `a` to `acc` one by one. */
  function AddAll<T(==,!new)>(acc: seq<T>, a: seq<T>): (r: seq<T>)
    ensures forall y :: y in r <==> y in acc || y in a
    ensures Distinct(acc) ==> Distinct(r)
    decreases |a|
  {
    if a == [] then acc else AddAll(SetAdd(acc, a[0]), a[1..])
  }

  /** `new Set(array)`: the first occurrences of the array's elements, in order. */
  function SetOf<T(==,!new)>(a: seq<T>): (r: seq<T>)
    ensures Distinct(r)
    ensures forall y :: y in r <==> y in a
  {
    AddAll([], a)
  }

  lemma {:induction false} AddAllDistinct<T(!new)>(acc: seq<T>, a: seq<T>)
    requires Distinct(acc + a)
    ensures AddAll(acc, a) == acc + a
    decreases |a|
  {
    if a != [] {
      forall i | 0 <= i < |acc| ensures acc[i] != a[0] {
        assert (acc + a)[i] == acc[i] && (acc + a)[|acc|] == a[0];
      }
      assert acc + [a[0]] + a[1..] == acc + a;
      AddAllDistinct(acc + [a[0]], a[1..]);
    }
  }

  /** Array.from(set) followed by new Set(array) gives the set back, in the same order. */
  lemma SetOfDistinct<T(!new)>(a: seq<T>)
    requires Distinct(a)
    ensures SetOf(a) == a
  {
    assert [] + a == a;
    AddAllDistinct([], a);
  }

  /** Array.prototype.filter. */
  function Filter<T(!new)>(s: seq<T>, p: T -> bool): (r: seq<T>)
    ensures |r| <= |s|
    ensures forall x :: x in r <==> x in s && p(x)
  {
    if s == [] then []
    else
      assert s == [s[0]] + s[1..];
      (if p(s[0]) then [s[0]] else []) + Filter(s[1..], p)
  }

  lemma {:induction false} FilterConcat<T(!new)>(a: seq<T>, b: seq<T>, p: T -> bool)
    ensures Filter(a + b, p) == Filter(a, p) + Filter(b, p)
  {
    if a == [] {
      assert a + b == b;
    } else {
      assert (a + b)[0] == a[0];
      assert (a + b)[1..] == a[1..] + b;
      FilterConcat(a[1..], b, p);
    }
  }

  /** A filter that keeps every element returns the array unchanged. */
  lemma {:induction false} FilterAll<T(!new)>(s: seq<T>, p: T -> bool)
    requires forall j :: 0 <= j < |s| ==> p(s[j])
    ensures Filter(s, p) == s
  {
    if s != [] {
      assert forall j :: 0 <= j < |s[1..]| ==> s[1..][j] == s[j + 1];
      FilterAll(s[1..], p);
      assert s == [s[0]] + s[1..];
    }
  }

  /** Filter keeps each accepted element as often as it occurs, and drops every rejected one. */
  lemma {:induction false} FilterMultiset<T(!new)>(s: seq<T>, p: T -> bool, x: T)
    ensures multiset(Filter(s, p))[x] == if p(x) then multiset(s)[x] else 0
  {
    if s != [] {
      FilterMultiset(s[1..], p, x);
      assert s == [s[0]] + s[1..];
    }
  }

  /** When the element at `k` is the only one rejected, filtering removes
      exactly that position and keeps the others in order. */
  lemma FilterRemovesOnly<T(!new)>(s: seq<T>, k: nat, p: T -> bool)
    requires k < |s| && !p(s[k])
    requires forall j :: 0 <= j < |s| && j != k ==> p(s[j])
    ensures Filter(s, p) == SpliceOne(s, k)
  {
    var a, x, b := s[..k], s[k], s[k + 1..];
    assert s == a + [x] + b;
    assert forall j :: 0 <= j < |b| ==> b[j] == s[k + 1 + j];
    FilterAll(a, p);
    FilterAll(b, p);
    FilterDropRejected(a, x, b, p);
    FilterConcat(a, b, p);
  }

  /** Array.prototype.findIndex: the first position whose element satisfies `p`. */
  function FindFirst<T>(s: seq<T>, p: T -> bool): (r: Option<nat>)
    ensures r.Some? ==> r.value < |s| && p(s[r.value])
    ensures r.Some? ==> forall j :: 0 <= j < r.value ==> !p(s[j])
    ensures r.None? ==> forall j :: 0 <= j < |s| ==> !p(s[j])
  {
    if s == [] then None
    else if p(s[0]) then Some(0)
    else match FindFirst(s[1..], p)
      case None => None
      case Some(k) => Some(k + 1)
  }

  /** Array.prototype.splice(start, 1) on the array `s`; the result is what is
      left in the array. A negative start counts from the end. */
  function SpliceOne<T>(s: seq<T>, start: int): (r: seq<T>)
    ensures 0 <= start < |s| ==> r == s[..start] + s[start + 1..]
    ensures start >= |s| ==> r == s
  {
    var k := if start < 0 then (if |s| + start < 0 then 0 else |s| + start)
             else (if start > |s| then |s| else start);
    if k < |s| then s[..k] + s[k + 1..] else s
  }

  /** Removing position `i` keeps every other element, in order. */
  lemma SpliceOneAt<T>(s: seq<T>, i: nat)
    requires i < |s|
    ensures |SpliceOne(s, i)| == |s| - 1
    ensures forall k :: 0 <= k < i ==> SpliceOne(s, i)[k] == s[k]
    ensures forall k :: i <= k < |s| - 1 ==> SpliceOne(s, i)[k] == s[k + 1]
    ensures multiset(SpliceOne(s, i)) + multiset{s[i]} == multiset(s)
  {
    assert s == s[..i] + [s[i]] + s[i + 1..];
  }

  /** Removing an element the filter rejects does not change what it keeps. */
  lemma FilterSpliceRejected<T(!new)>(s: seq<T>, i: nat, p: T -> bool)
    requires i < |s| && !p(s[i])
    ensures Filter(SpliceOne(s, i), p) == Filter(s, p)
  {
    var a, b, x := s[..i], s[i + 1..], s[i];
    assert SpliceOne(s, i) == a + b;
    assert a + [x] + b == s;
    calc {
      Filter(SpliceOne(s, i), p);
      Filter(a + b, p);
      { FilterDropRejected(a, x, b, p); }
      Filter(a + [x] + b, p);
      Filter(s, p);
    }
  }

  lemma FilterDropRejected<T(!new)>(a: seq<T>, x: T, b: seq<T>, p: T -> bool)
    requires !p(x)
    ensures Filter(a + [x] + b, p) == Filter(a + b, p)
  {
    FilterConcat(a + [x], b, p);
    FilterConcat(a, [x], p);
    FilterConcat(a, b, p);
    FilterRejectedOne(x, p);
    assert Filter(a, p) + [] == Filter(a, p);
  }

  lemma FilterRejectedOne<T(!new)>(x: T, p: T -> bool)
    requires !p(x)
    ensures Filter([x], p) == []
  {
    assert [x][1..] == [];
  }

  /** Sequences with the same multiset have the same elements. */
  lemma SameElements<T>(a: seq<T>, b: seq<T>)
    requires multiset(a) == multiset(b)
    ensures forall x :: x in a <==> x in b
  {
    forall x ensures x in a <==> x in b {
      assert x in a <==> x in multiset(a);
      assert x in b <==> x in multiset(b);
    }
  }

  /** A repeat-free sequence holds each value at most once. */
  lemma {:induction false} DistinctAtMostOnce<T>(s: seq<T>, x: T)
    requires Distinct(s)
    ensures multiset(s)[x] <= 1
  {
    if s != [] {
      assert s == [s[0]] + s[1..];
      assert Distinct(s[1..]) by {
        forall i, j | 0 <= i < j < |s[1..]| ensures s[1..][i] != s[1..][j] {
          assert s[1..][i] == s[i + 1] && s[1..][j] == s[j + 1];
        }
      }
      DistinctAtMostOnce(s[1..], x);
      if x == s[0] {
        assert x !in s[1..];
      }
    }
  }

  /** A value found at two positions is counted at least twice. */
  lemma RepeatCountsTwice<T>(s: seq<T>, i: int, j: int)
    requires 0 <= i < j < |s| && s[i] == s[j]
    ensures multiset(s)[s[i]] >= 2
  {
    assert s == s[..i] + [s[i]] + s[i + 1..j] + [s[j]] + s[j + 1..];
  }

  /** Reordering keeps a sequence repeat-free. */
  lemma PermutationKeepsDistinct<T>(a: seq<T>, b: seq<T>)
    requires multiset(a) == multiset(b) && Distinct(a)
    ensures Distinct(b)
  {
    forall i, j | 0 <= i < j < |b| ensures b[i] != b[j] {
      if b[i] == b[j] {
        RepeatCountsTwice(b, i, j);
        DistinctAtMostOnce(a, b[i]);
        assert false;
      }
    }
  }

  // ---------------------------------------------------------------- sorting

  /** Newest first: no element's key is larger than its predecessor's. */
  predicate SortedDesc<T>(s: seq<T>, key: T -> int) {
    forall i :: 0 < i < |s| ==> key(s[i - 1]) >= key(s[i])
  }

  /** Newest first between neighbours means newest first between any two positions. */
  lemma {:induction false} SortedDescPairwise<T>(s: seq<T>, key: T -> int, i: nat, j: nat)
    requires SortedDesc(s, key) && i <= j < |s|
    ensures key(s[i]) >= key(s[j])
    decreases j - i
  {
    if i < j {
      SortedDescPairwise(s, key, i + 1, j);
    }
  }

  /** Inserts `x` in front of the first element whose key is not larger. */
  function InsertDesc<T>(x: T, s: seq<T>, key: T -> int): (r: seq<T>)
    ensures |r| == |s| + 1
    ensures r[0] == x || (s != [] && r[0] == s[0])
  {
    if s == [] || key(x) >= key(s[0]) then [x] + s
    else [s[0]] + InsertDesc(x, s[1..], key)
  }

  /** Inserting into a newest-first list keeps it newest first. */
  lemma {:induction false} InsertDescSorted<T>(x: T, s: seq<T>, key: T -> int)
    requires SortedDesc(s, key)
    ensures SortedDesc(InsertDesc(x, s, key), key)
  {
    if s == [] || key(x) >= key(s[0]) {
      SortedCons(x, s, key);
    } else {
      SortedTail(s, key);
      InsertDescSorted(x, s[1..], key);
      SortedCons(s[0], InsertDesc(x, s[1..], key), key);
    }
  }

  /** Inserting adds exactly `x` to the elements. */
  lemma {:induction false} InsertDescMultiset<T>(x: T, s: seq<T>, key: T -> int)
    ensures multiset(InsertDesc(x, s, key)) == multiset(s) + multiset{x}
  {
    if s != [] && key(x) < key(s[0]) {
      InsertDescMultiset(x, s[1..], key);
      assert s == [s[0]] + s[1..];
    }
  }

  /** The tail of a newest-first list is newest-first, and no newer than its head. */
  lemma SortedTail<T>(s: seq<T>, key: T -> int)
    requires SortedDesc(s, key) && s != []
    ensures SortedDesc(s[1..], key)
    ensures |s| > 1 ==> key(s[0]) >= key(s[1])
  {
    assert forall i :: 0 <= i < |s| - 1 ==> s[1..][i] == s[i + 1];
  }

  /** An element no smaller than the head of a newest-first list can go in front of it. */
  lemma SortedCons<T>(h: T, s: seq<T>, key: T -> int)
    requires SortedDesc(s, key) && (s == [] || key(h) >= key(s[0]))
    ensures SortedDesc([h] + s, key)
  {
    assert forall i :: 0 < i < |[h] + s| ==> ([h] + s)[i] == s[i - 1];
  }

  /** Array.prototype.sort with the comparator `(a, b) => key(b) - key(a)`:
      newest first, and (as the sort is stable) equal keys in their old order. */
  function SortDesc<T>(s: seq<T>, key: T -> int): (r: seq<T>)
    ensures SortedDesc(r, key)
    ensures multiset(r) == multiset(s)
    ensures |r| == |s|
  {
    if s == [] then []
    else
      var rest := SortDesc(s[1..], key);
      InsertDescSorted(s[0], rest, key);
      InsertDescMultiset(s[0], rest, key);
      assert s == [s[0]] + s[1..];
      InsertDesc(s[0], rest, key)
  }
}
