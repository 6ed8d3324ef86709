/**
 * Shared vocabulary of the model: optional values, addresses, opaque payloads,
 * Java `int` wrap-around, Java string helpers and counting over sequences.
 */
module Common {

  /** A Java reference that may be `null`. */
  datatype Option<+T> = None | Some(value: T)

  /** A process's socket address, compared by value. */
  type Addr = nat

  /** The opaque bytes of an application message or of an application value. */
  type Payload = seq<int>

  const TWO_32: int := 0x1_0000_0000
  const INT_MIN: int := -0x8000_0000
  const INT_MAX: int := 0x7FFF_FFFF

  predicate IsInt32(x: int)
  {
    INT_MIN <= x <= INT_MAX
  }

  /** Java `int` arithmetic: the two's-complement value of an unbounded result. */
  function Wrap32(x: int): (r: int)
    ensures IsInt32(r)
    ensures (x - r) % TWO_32 == 0
    ensures IsInt32(x) ==> r == x
  {
    (x - INT_MIN) % TWO_32 + INT_MIN
  }

  /** Wrapping after every step of a sum is the same as wrapping once at the end. */
  lemma Wrap32AddRight(a: int, b: int)
    ensures Wrap32(a + Wrap32(b)) == Wrap32(a + b)
  {
    var k := (b - Wrap32(b)) / TWO_32;
    assert b == Wrap32(b) + k * TWO_32;
    Wrap32Periodic(a + Wrap32(b), k);
  }

  lemma Wrap32Periodic(x: int, k: int)
    ensures Wrap32(x + k * TWO_32) == Wrap32(x)
  {
    var y := x - INT_MIN;
    assert (y + k * TWO_32) % TWO_32 == y % TWO_32;
  }

  /** The decimal text of a non-negative number, as `String.valueOf` writes it. */
  function NatToString(n: nat): (r: string)
    ensures |r| >= 1
    ensures forall i :: 0 <= i < |r| ==> '0' <= r[i] <= '9'
  {
    if n < 10 then [DigitChar(n)] else NatToString(n / 10) + [DigitChar(n % 10)]
  }

  function DigitChar(d: nat): (c: char)
    requires d < 10
    ensures '0' <= c <= '9' && c as int - '0' as int == d
  {
    ('0' as int + d) as char
  }

  /** Different numbers have different decimal texts. */
  lemma {:induction false} NatToStringInjective(a: nat, b: nat)
    requires NatToString(a) == NatToString(b)
    ensures a == b
  {
    var sa, sb := NatToString(a), NatToString(b);
    if a >= 10 && b >= 10 {
      assert sa[..|sa| - 1] == NatToString(a / 10);
      assert sb[..|sb| - 1] == NatToString(b / 10);
      NatToStringInjective(a / 10, b / 10);
      assert DigitChar(a % 10) == sa[|sa| - 1] == DigitChar(b % 10);
    } else if a < 10 && b < 10 {
      assert DigitChar(a) == sa[0] == DigitChar(b);
    }
  }

  /** `String.valueOf(int)`: a minus sign for negative numbers, then the digits. */
  function IntToString(i: int): (r: string)
    ensures |r| >= 1
    ensures i < 0 <==> r[0] == '-'
  {
    if i < 0 then "-" + NatToString(-i) else NatToString(i)
  }

  /** `String.valueOf(int)` tells different numbers apart. */
  lemma IntToStringInjective(a: int, b: int)
    requires IntToString(a) == IntToString(b)
    ensures a == b
  {
    if a < 0 && b < 0 {
      assert IntToString(a)[1..] == NatToString(-a);
      assert IntToString(b)[1..] == NatToString(-b);
      NatToStringInjective(-a, -b);
    } else if a >= 0 && b >= 0 {
      NatToStringInjective(a, b);
    }
  }

  /**
   * The case fold of `String.equalsIgnoreCase` for characters that fold onto
   * an ASCII letter: `Character.toUpperCase` or `toLowerCase` takes long s
   * (U+017F) to 's', the Kelvin sign (U+212A) to 'k', and dotted and dotless
   * I (U+0130, U+0131) to 'i'. Other characters are left as they are.
   */
  function LowerChar(c: char): (r: char)
    ensures 'A' <= c <= 'Z' ==> r as int == c as int + 32
    ensures ('a' <= r <= 'z') <==> ('a' <= c <= 'z' || 'A' <= c <= 'Z' || c in {'\U{017F}', '\U{212A}', '\U{0130}', '\U{0131}'})
  {
    if 'A' <= c <= 'Z' then (c as int + 32) as char
    else if c == '\U{017F}' then 's'
    else if c == '\U{212A}' then 'k'
    else if c == '\U{0130}' || c == '\U{0131}' then 'i'
    else c
  }

  /**
   * `String.equalsIgnoreCase` when one side is ASCII: equal lengths and
   * characters equal after the fold.
   */
  predicate EqualsIgnoreCase(a: string, b: string)
  {
    |a| == |b| && forall i :: 0 <= i < |a| ==> LowerChar(a[i]) == LowerChar(b[i])
  }

  /** Number of occurrences of `x` in `s`. */
  function Count<T(==)>(s: seq<T>, x: T): (n: nat)
    ensures n <= |s|
    ensures n == 0 <==> x !in s
  {
    if |s| == 0 then 0
    else Count(s[..|s| - 1], x) + (if s[|s| - 1] == x then 1 else 0)
  }

  lemma CountAppend<T>(s: seq<T>, y: T, x: T)
    ensures Count(s + [y], x) == Count(s, x) + (if y == x then 1 else 0)
  {
    assert (s + [y])[..|s|] == s;
  }

  /** Two different values share the positions of one sequence. */
  lemma {:induction false} CountTwoDistinct<T>(s: seq<T>, x: T, y: T)
    requires x != y
    ensures Count(s, x) + Count(s, y) <= |s|
  {
    if |s| > 0 {
      CountTwoDistinct(s[..|s| - 1], x, y);
    }
  }

  /** Number of indices below `n` that satisfy `p`. */
  function CountIdx(n: nat, p: nat -> bool): (c: nat)
    ensures c <= n
  {
    if n == 0 then 0 else CountIdx(n - 1, p) + (if p(n - 1) then 1 else 0)
  }

  /** Two predicates that hold often enough must hold together somewhere. */
  lemma {:induction false} CountIdxOverlap(n: nat, p: nat -> bool, q: nat -> bool)
    ensures CountIdx(n, (i: nat) => p(i) && q(i)) >= CountIdx(n, p) + CountIdx(n, q) - n
  {
    if n > 0 {
      CountIdxOverlap(n - 1, p, q);
    }
  }

  /** Counting is monotone in the predicate. */
  lemma {:induction false} CountIdxMono(n: nat, p: nat -> bool, q: nat -> bool)
    requires forall i :: 0 <= i < n && p(i) ==> q(i)
    ensures CountIdx(n, p) <= CountIdx(n, q)
  {
    if n > 0 {
      CountIdxMono(n - 1, p, q);
    }
  }

  /** Counting depends only on the predicate's values below `n`. */
  lemma {:induction false} CountIdxExt(n: nat, p: nat -> bool, q: nat -> bool)
    requires forall i :: 0 <= i < n ==> p(i) == q(i)
    ensures CountIdx(n, p) == CountIdx(n, q)
  {
    if n > 0 {
      CountIdxExt(n - 1, p, q);
    }
  }

  /** A predicate that holds nowhere counts zero. */
  lemma {:induction false} CountIdxNone(n: nat, p: nat -> bool)
    requires forall i :: 0 <= i < n ==> !p(i)
    ensures CountIdx(n, p) == 0
  {
    if n > 0 {
      CountIdxNone(n - 1, p);
    }
  }

  /** A predicate that holds everywhere counts every index. */
  lemma {:induction false} CountIdxAll(n: nat, p: nat -> bool)
    requires forall i :: 0 <= i < n ==> p(i)
    ensures CountIdx(n, p) == n
  {
    if n > 0 {
      CountIdxAll(n - 1, p);
    }
  }

  /** One index that satisfies the predicate makes the count positive. */
  lemma {:induction false} CountIdxOne(n: nat, p: nat -> bool, k: nat)
    requires k < n && p(k)
    ensures CountIdx(n, p) >= 1
  {
    if k < n - 1 {
      CountIdxOne(n - 1, p, k);
    }
  }

  /** A positive count has a witness. */
  lemma {:induction false} CountIdxWitness(n: nat, p: nat -> bool) returns (i: nat)
    requires CountIdx(n, p) > 0
    ensures i < n && p(i)
  {
    if p(n - 1) {
      i := n - 1;
    } else {
      i := CountIdxWitness(n - 1, p);
    }
  }

  /** Number of `true` entries of a flag vector. */
  function CountTrue(s: seq<bool>): (n: nat)
    ensures n <= |s|
    ensures n == |s| <==> forall i :: 0 <= i < |s| ==> s[i]
  {
    if |s| == 0 then 0 else CountTrue(s[..|s| - 1]) + (if s[|s| - 1] then 1 else 0)
  }

  /** The elements a sequence holds. */
  function Elems<T(==,!new)>(s: seq<T>): (r: set<T>)
    ensures forall x :: x in r <==> x in s
  {
    set x | x in s
  }

  predicate Distinct<T(==)>(s: seq<T>)
  {
    forall i, j :: 0 <= i < j < |s| ==> s[i] != s[j]
  }

  /** A sequence has at least as many positions as distinct elements, exactly as many when no element repeats. */
  lemma {:induction false} DistinctCard<T(!new)>(s: seq<T>)
    ensures |Elems(s)| <= |s|
    ensures |Elems(s)| == |s| <==> Distinct(s)
    decreases |s|
  {
    if s != [] {
      var rest := s[1..];
      DistinctCard(rest);
      assert Elems(s) == {s[0]} + Elems(rest);
      if s[0] in rest {
        assert Elems(s) == Elems(rest);
        var j :| 0 <= j < |rest| && rest[j] == s[0];
        assert s[0] == s[j + 1];
      } else {
        var R := Elems(rest);
        assert s[0] !in R;
        assert {s[0]} * R == {};
        assert |{s[0]} + R| + |{s[0]} * R| == |{s[0]}| + |R|;
        assert |Elems(s)| == 1 + |R|;
        if Distinct(rest) {
          forall i, j | 0 <= i < j < |s|
            ensures s[i] != s[j]
          {
            if i == 0 {
              assert s[j] == rest[j - 1];
            } else {
              assert s[i] == rest[i - 1] && s[j] == rest[j - 1];
            }
          }
          assert Distinct(s);
          assert |R| == |rest|;
          assert |Elems(s)| == |s|;
        } else {
          var i, j :| 0 <= i < j < |rest| && rest[i] == rest[j];
          assert s[i + 1] == s[j + 1];
          assert !Distinct(s);
          assert |R| < |rest|;
          assert |Elems(s)| < |s|;
        }
      }
    }
  }

  /** In a sequence without repeats every element occurs once. */
  lemma {:induction false} DistinctMultiset<T>(s: seq<T>)
    requires Distinct(s)
    ensures forall x :: multiset(s)[x] == if x in s then 1 else 0
    decreases |s|
  {
    if s != [] {
      var rest := s[1..];
      assert Distinct(rest) by {
        forall i, j | 0 <= i < j < |rest|
          ensures rest[i] != rest[j]
        {
          assert rest[i] == s[i + 1] && rest[j] == s[j + 1];
        }
      }
      DistinctMultiset(rest);
      assert s == [s[0]] + rest;
      assert s[0] !in rest;
    }
  }

  /**
   * A sequence without repeats whose elements all occur in a sequence of the
   * same length is a permutation of it.
   */
  lemma PermutationOfDistinct<T(!new)>(s: seq<T>, t: seq<T>)
    requires Distinct(s) && |s| == |t| && forall x :: x in s ==> x in t
    ensures multiset(s) == multiset(t)
  {
    DistinctCard(s);
    DistinctCard(t);
    var S, T := Elems(s), Elems(t);
    assert S <= T;
    assert T == S + (T - S) && S * (T - S) == {};
    assert |T| + |S * (T - S)| == |S| + |T - S|;
    assert |T - S| == 0;
    assert Distinct(t);
    DistinctMultiset(s);
    DistinctMultiset(t);
    forall x
      ensures multiset(s)[x] == multiset(t)[x]
    {
      assert x in s <==> x in S;
      assert x in t <==> x in T;
    }
  }

}
