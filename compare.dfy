/**
 * The ordering of mgids (inout.c): memcmp over the twelve bytes, i.e. the
 * unsigned lexicographic order, and the operators built on its sign.
 */
module Compare {
  import opened Layout

  /**
   * The reference order: a comes first when, at the first position where
   * the two differ, a's byte is the smaller one.
   */
  ghost predicate Precedes(a: seq<byte>, b: seq<byte>)
  {
    exists k :: 0 <= k < |a| && k < |b| && a[..k] == b[..k] && a[k] < b[k]
  }

  /**
   * memcmp over |a| bytes. The C standard fixes only the sign of the
   * result; the difference of the first pair of differing bytes is the
   * textbook implementation. Everything below uses the sign only.
   */
  function MemCmp(a: seq<byte>, b: seq<byte>): (r: int)
    requires |a| == |b|
    ensures r == 0 <==> a == b
  {
    if a == [] then 0
    else if a[0] != b[0] then a[0] - b[0]
    else
      assert a == [a[0]] + a[1..] && b == [b[0]] + b[1..];
      MemCmp(a[1..], b[1..])
  }

  /** Removing a common first byte does not change which sequence comes first. */
  lemma PrecedesTail(a: seq<byte>, b: seq<byte>)
    requires |a| == |b| && a != [] && a[0] == b[0]
    ensures Precedes(a, b) <==> Precedes(a[1..], b[1..])
  {
    if Precedes(a, b) {
      var k :| 0 <= k < |a| && a[..k] == b[..k] && a[k] < b[k];
      assert k > 0;
      assert a[1..][..k - 1] == a[1..k] == b[1..k] == b[1..][..k - 1];
    }
    if Precedes(a[1..], b[1..]) {
      var k :| 0 <= k < |a| - 1 && a[1..][..k] == b[1..][..k] && a[1..][k] < b[1..][k];
      assert a[..k + 1] == [a[0]] + a[1..][..k];
      assert b[..k + 1] == [b[0]] + b[1..][..k];
    }
  }

  /** The sign of memcmp is the reference order, in both directions. */
  lemma {:induction false} MemCmpSign(a: seq<byte>, b: seq<byte>)
    requires |a| == |b|
    ensures MemCmp(a, b) < 0 <==> Precedes(a, b)
    ensures MemCmp(a, b) > 0 <==> Precedes(b, a)
  {
    if a == [] {
    } else if a[0] < b[0] {
      assert a[..0] == b[..0];
    } else if a[0] > b[0] {
      assert a[..0] == b[..0];
    } else {
      MemCmpSign(a[1..], b[1..]);
      PrecedesTail(a, b);
      PrecedesTail(b, a);
    }
  }

  /** mgid_internal_cmp: memcmp over MgidLen bytes. */
  function InternalCmp(arg1: Mgid, arg2: Mgid): (r: int)
    ensures r == 0 <==> arg1 == arg2
    ensures r < 0 <==> Precedes(arg1, arg2)
    ensures r > 0 <==> Precedes(arg2, arg1)
  {
    MemCmpSign(arg1, arg2);
    MemCmp(arg1, arg2)
  }

  /** mgid_fast_cmp: the sort-support comparator, the same order. */
  function FastCmp(x: Mgid, y: Mgid): (r: int)
    ensures r == 0 <==> x == y
    ensures r < 0 <==> Precedes(x, y)
    ensures r > 0 <==> Precedes(y, x)
  {
    InternalCmp(x, y)
  }

  /** mgid_eq */
  function Eq(a: Mgid, b: Mgid): (r: bool)
    ensures r <==> a == b
  {
    InternalCmp(a, b) == 0
  }

  /** mgid_ne */
  function Ne(a: Mgid, b: Mgid): (r: bool)
    ensures r <==> a != b
  {
    InternalCmp(a, b) != 0
  }

  /** mgid_lt */
  function Lt(a: Mgid, b: Mgid): (r: bool)
    ensures r <==> Precedes(a, b)
  {
    InternalCmp(a, b) < 0
  }

  /** mgid_gt */
  function Gt(a: Mgid, b: Mgid): (r: bool)
    ensures r <==> Precedes(b, a)
  {
    InternalCmp(a, b) > 0
  }

  /** mgid_le */
  function Le(a: Mgid, b: Mgid): (r: bool)
    ensures r <==> Precedes(a, b) || a == b
  {
    InternalCmp(a, b) <= 0
  }

  /** mgid_ge */
  function Ge(a: Mgid, b: Mgid): (r: bool)
    ensures r <==> Precedes(b, a) || a == b
  {
    InternalCmp(a, b) >= 0
  }

  /** mgid_cmp: the btree support function returns the comparator as is. */
  function Cmp(a: Mgid, b: Mgid): (r: int)
    ensures r == 0 <==> a == b
    ensures r < 0 <==> Precedes(a, b)
    ensures r > 0 <==> Precedes(b, a)
  {
    InternalCmp(a, b)
  }

  /** The reference order is transitive. */
  lemma PrecedesTransitive(a: seq<byte>, b: seq<byte>, c: seq<byte>)
    requires Precedes(a, b) && Precedes(b, c)
    ensures Precedes(a, c)
  {
    var i :| 0 <= i < |a| && i < |b| && a[..i] == b[..i] && a[i] < b[i];
    var j :| 0 <= j < |b| && j < |c| && b[..j] == c[..j] && b[j] < c[j];
    var k := if i < j then i else j;
    assert a[..k] == a[..i][..k] == b[..i][..k] == b[..k];
    assert b[..k] == b[..j][..k] == c[..j][..k] == c[..k];
    if i < j {
      assert b[i] == b[..j][i] == c[..j][i] == c[i];
    } else if j < i {
      assert a[j] == a[..i][j] == b[..i][j] == b[j];
    }
    assert a[k] < c[k];
  }

  /** Both `< 0` and `<= 0` of the comparator are transitive. */
  lemma CmpTransitive(a: Mgid, b: Mgid, c: Mgid)
    ensures Cmp(a, b) < 0 && Cmp(b, c) < 0 ==> Cmp(a, c) < 0
    ensures Cmp(a, b) <= 0 && Cmp(b, c) <= 0 ==> Cmp(a, c) <= 0
  {
    if Cmp(a, b) <= 0 && Cmp(b, c) <= 0 && a != b && b != c {
      PrecedesTransitive(a, b, c);
    }
  }

  /**
   * The comparator is decided by the first differing byte: if the bytes
   * before k agree and byte k differs, the sign is that of a[k] - b[k].
   */
  lemma CmpFirstDifference(a: Mgid, b: Mgid, k: nat)
    requires k < MgidLen && a[..k] == b[..k] && a[k] != b[k]
    ensures Cmp(a, b) < 0 <==> a[k] < b[k]
    ensures Cmp(a, b) > 0 <==> a[k] > b[k]
  {
    if a[k] < b[k] {
      assert Precedes(a, b);
    } else {
      assert Precedes(b, a);
    }
  }

  /** The six operators are the six sign tests of one comparator, so they agree with each other. */
  lemma OperatorsAgree(a: Mgid, b: Mgid)
    ensures Lt(a, b) || Eq(a, b) || Gt(a, b)
    ensures !(Lt(a, b) && Eq(a, b)) && !(Lt(a, b) && Gt(a, b)) && !(Eq(a, b) && Gt(a, b))
    ensures Ne(a, b) <==> !Eq(a, b)
    ensures Le(a, b) <==> Lt(a, b) || Eq(a, b)
    ensures Ge(a, b) <==> Gt(a, b) || Eq(a, b)
    ensures Lt(a, b) <==> Gt(b, a)
    ensures Cmp(a, b) < 0 <==> Cmp(b, a) > 0
    ensures Le(a, b) <==> Ge(b, a)
    ensures Eq(a, b) <==> Eq(b, a)
    ensures FastCmp(a, b) == Cmp(a, b)
  {
  }
}
