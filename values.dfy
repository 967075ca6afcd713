/** JSON scalars as the chat server and its database see them, JavaScript
    truthiness on them, and the order in which the database sorts and groups
    them. */
module Values {

  datatype Option<+T> = None | Some(value: T)

  /** A scalar field of a JSON document. `Null` stands both for a missing
      field and for an explicit `null`: the database matches, sorts and groups
      the two alike. */
  datatype Value = Null | Num(n: int) | Str(s: string)

  /** JavaScript truthiness: `!v` is false exactly for these values. */
  function Truthy(v: Value): (r: bool)
    ensures !r <==> v == Null || v == Num(0) || v == Str("")
  {
    match v
    case Null => false
    case Num(n) => n != 0
    case Str(s) => s != ""
  }

  /** Lexicographic order on strings, character by character. The database
      compares UTF-8 strings byte by byte, which orders them by code point,
      that is, the same way. */
  predicate StrLess(a: string, b: string)
    decreases |a|
  {
    if a == [] then b != []
    else b != [] && (a[0] < b[0] || (a[0] == b[0] && StrLess(a[1..], b[1..])))
  }

  /** `a` is a proper prefix of `b`. */
  predicate ProperPrefix(a: string, b: string)
  {
    |a| < |b| && a == b[..|a|]
  }

  /** At the first position where `a` and `b` differ, `a` has the smaller
      character. */
  predicate SmallerAtFirstDifference(a: string, b: string)
  {
    exists k :: 0 <= k < |a| && k < |b| && a[..k] == b[..k] && a[k] < b[k]
  }

  /** `a` sorts before `b` exactly when it is a proper prefix of `b` or has
      the smaller character where they first differ. */
  lemma {:induction false} StrLessLexicographic(a: string, b: string)
    ensures StrLess(a, b) <==> ProperPrefix(a, b) || SmallerAtFirstDifference(a, b)
    decreases |a|
  {
    if a != [] && b != [] {
      StrLessLexicographic(a[1..], b[1..]);
      ProperPrefixCons(a, b);
      FirstDifferenceCons(a, b);
    }
  }

  lemma ProperPrefixCons(a: string, b: string)
    requires a != [] && b != []
    ensures ProperPrefix(a, b) <==> a[0] == b[0] && ProperPrefix(a[1..], b[1..])
  {
    if |a| < |b| {
      assert b[..|a|] == [b[0]] + b[1..][..|a| - 1];
      assert a == [a[0]] + a[1..];
    }
  }

  lemma FirstDifferenceCons(a: string, b: string)
    requires a != [] && b != []
    ensures SmallerAtFirstDifference(a, b) <==>
      a[0] < b[0] || (a[0] == b[0] && SmallerAtFirstDifference(a[1..], b[1..]))
  {
    if SmallerAtFirstDifference(a, b) {
      var k :| 0 <= k < |a| && k < |b| && a[..k] == b[..k] && a[k] < b[k];
      if k > 0 {
        FirstDifferenceToTail(a, b, k);
      }
    }
    if a[0] < b[0] {
      assert a[..0] == b[..0];
    }
    if a[0] == b[0] && SmallerAtFirstDifference(a[1..], b[1..]) {
      var k :| 0 <= k < |a[1..]| && k < |b[1..]| && a[1..][..k] == b[1..][..k] && a[1..][k] < b[1..][k];
      FirstDifferenceFromTail(a, b, k);
    }
  }

  lemma FirstDifferenceToTail(a: string, b: string, k: nat)
    requires 0 < k < |a| && k < |b| && a[..k] == b[..k] && a[k] < b[k]
    ensures a[0] == b[0] && SmallerAtFirstDifference(a[1..], b[1..])
  {
    assert a[..k][0] == b[..k][0];
    assert a[1..][..k - 1] == a[..k][1..] && b[1..][..k - 1] == b[..k][1..];
    assert a[1..][k - 1] == a[k] && b[1..][k - 1] == b[k];
  }

  lemma FirstDifferenceFromTail(a: string, b: string, k: nat)
    requires a != [] && b != [] && a[0] == b[0]
    requires k < |a[1..]| && k < |b[1..]| && a[1..][..k] == b[1..][..k] && a[1..][k] < b[1..][k]
    ensures SmallerAtFirstDifference(a, b)
  {
    assert a[..k + 1] == [a[0]] + a[1..][..k] && b[..k + 1] == [b[0]] + b[1..][..k];
    assert a[k + 1] == a[1..][k] && b[k + 1] == b[1..][k];
  }

  lemma {:induction false} StrLessIrreflexive(a: string)
    ensures !StrLess(a, a)
    decreases |a|
  {
    if a != [] {
      StrLessIrreflexive(a[1..]);
    }
  }

  lemma {:induction false} StrLessTransitive(a: string, b: string, c: string)
    requires StrLess(a, b) && StrLess(b, c)
    ensures StrLess(a, c)
    decreases |a|
  {
    if a != [] && a[0] == b[0] && b[0] == c[0] {
      StrLessTransitive(a[1..], b[1..], c[1..]);
    }
  }

  lemma {:induction false} StrLessTotal(a: string, b: string)
    ensures a == b || StrLess(a, b) || StrLess(b, a)
    decreases |a|
  {
    if a != [] && b != [] && a[0] == b[0] {
      StrLessTotal(a[1..], b[1..]);
      if a[1..] == b[1..] {
        assert a == [a[0]] + a[1..] && b == [b[0]] + b[1..];
      }
    }
  }

  /** The database's comparison order on the values modelled: null first,
      then numbers by value, then strings lexicographically. */
  predicate Less(a: Value, b: Value)
  {
    match a
    case Null => !b.Null?
    case Num(x) => (b.Num? && x < b.n) || b.Str?
    case Str(x) => b.Str? && StrLess(x, b.s)
  }

  predicate LessEq(a: Value, b: Value)
  {
    a == b || Less(a, b)
  }

  lemma LessIrreflexive(a: Value)
    ensures !Less(a, a)
  {
    if a.Str? {
      StrLessIrreflexive(a.s);
    }
  }

  lemma LessTransitive(a: Value, b: Value, c: Value)
    requires Less(a, b) && Less(b, c)
    ensures Less(a, c)
  {
    if a.Str? && b.Str? && c.Str? {
      StrLessTransitive(a.s, b.s, c.s);
    }
  }

  /** Any two values are equal or ordered one way. */
  lemma LessTotal(a: Value, b: Value)
    ensures a == b || Less(a, b) || Less(b, a)
  {
    if a.Str? && b.Str? {
      StrLessTotal(a.s, b.s);
    }
  }

  lemma LessAsymmetric(a: Value, b: Value)
    requires Less(a, b)
    ensures !Less(b, a)
  {
    if Less(b, a) {
      LessTransitive(a, b, a);
      LessIrreflexive(a);
    }
  }

  lemma LessEqTransitive(a: Value, b: Value, c: Value)
    requires LessEq(a, b) && LessEq(b, c)
    ensures LessEq(a, c)
  {
    if a != b && b != c {
      LessTransitive(a, b, c);
    }
  }
}
