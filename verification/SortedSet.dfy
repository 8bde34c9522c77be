/** The sorted-set operations the fair queue relies on: a member has one score,
    and ZPOPMIN removes the member with the lowest score, the
    lexicographically smallest of them when scores tie. */
module SortedSet {

  type Member = string
  type ZSet = map<Member, nat>

  predicate MemberLess(a: Member, b: Member) {
    if b == "" then false
    else if a == "" then true
    else if a[0] != b[0] then a[0] < b[0]
    else MemberLess(a[1..], b[1..])
  }

  /** `a` and `b` agree on their first `k` characters; then `a` ends, or has the
      lesser character. */
  predicate DiffersAt(a: Member, b: Member, k: nat) {
    k <= |a| && k < |b| && a[..k] == b[..k] && (k == |a| || a[k] < b[k])
  }

  lemma SameFirst(a: Member, b: Member, k: nat)
    requires DiffersAt(a, b, k)
    ensures k == 0 || (a != "" && a[0] == b[0])
  {
    if k > 0 { assert a[..k][0] == b[..k][0]; }
  }

  /** The order of members is lexicographic. */
  lemma {:induction false} MemberLessMeans(a: Member, b: Member)
    ensures MemberLess(a, b) <==> exists k :: DiffersAt(a, b, k)
  {
    if a == "" || b == "" || a[0] != b[0] {
      assert b != "" && (a == "" || a[0] < b[0]) ==> DiffersAt(a, b, 0);
      forall k: nat | DiffersAt(a, b, k) ensures k == 0 { SameFirst(a, b, k); }
    } else {
      MemberLessMeans(a[1..], b[1..]);
      forall k: nat ensures DiffersAt(a, b, k + 1) <==> DiffersAt(a[1..], b[1..], k) {
        if k < |a| && k + 1 < |b| {
          assert a[..k + 1] == [a[0]] + a[1..][..k] && b[..k + 1] == [b[0]] + b[1..][..k];
        }
      }
      if k: nat :| DiffersAt(a, b, k) { assert DiffersAt(a[1..], b[1..], k - 1); }
      if k: nat :| DiffersAt(a[1..], b[1..], k) { assert DiffersAt(a, b, k + 1); }
    }
  }

  lemma {:induction false} MemberLessTotal(a: Member, b: Member)
    ensures a == b || MemberLess(a, b) || MemberLess(b, a)
    ensures !(MemberLess(a, b) && MemberLess(b, a))
    ensures !MemberLess(a, a)
  {
    if a != "" {
      MemberLessTotal(a[1..], a[1..]);
      if b != "" && a[0] == b[0] {
        MemberLessTotal(a[1..], b[1..]);
        assert a == [a[0]] + a[1..] && b == [b[0]] + b[1..];
      }
    }
  }

  lemma {:induction false} MemberLessTransitive(a: Member, b: Member, c: Member)
    requires MemberLess(a, b) && MemberLess(b, c)
    ensures MemberLess(a, c)
  {
    if a != "" && a[0] == b[0] == c[0] {
      MemberLessTransitive(a[1..], b[1..], c[1..]);
    }
  }

  /** Dispatch order: score first, then member. */
  predicate Before(z: ZSet, a: Member, b: Member)
    requires a in z && b in z
  {
    z[a] < z[b] || (z[a] == z[b] && MemberLess(a, b))
  }

  predicate IsFirst(z: ZSet, m: Member) {
    m in z && forall k <- z | k != m :: Before(z, m, k)
  }

  lemma {:induction false} FirstExists(z: ZSet)
    requires |z| > 0
    ensures exists m :: IsFirst(z, m)
    decreases |z|
  {
    var m :| m in z;
    var rest := Remove(z, m);
    if |rest| == 0 {
      assert z.Keys == {m} by { assert rest.Keys == z.Keys - {m}; }
      assert IsFirst(z, m);
    } else {
      FirstExists(rest);
      var f :| IsFirst(rest, f);
      MemberLessTotal(m, f);
      if Before(z, f, m) {
        forall k <- z | k != f ensures Before(z, f, k) {
          if k != m { assert k in rest && Before(rest, f, k); }
        }
        assert IsFirst(z, f);
      } else {
        forall k <- z | k != m ensures Before(z, m, k) {
          if k != f {
            assert k in rest && Before(rest, f, k);
            if z[m] == z[k] { MemberLessTransitive(m, f, k); }
          }
        }
        assert IsFirst(z, m);
      }
    }
  }

  lemma FirstUnique(z: ZSet, a: Member, b: Member)
    requires IsFirst(z, a) && IsFirst(z, b)
    ensures a == b
  {
    MemberLessTotal(a, b);
  }

  ghost function First(z: ZSet): (m: Member)
    requires |z| > 0
    ensures IsFirst(z, m)
  {
    FirstExists(z);
    var m :| IsFirst(z, m);
    m
  }

  /** ZREM: the set without `m`. */
  function Remove(z: ZSet, m: Member): (r: ZSet)
    requires m in z
    ensures |r| == |z| - 1
    ensures forall k :: k in r <==> k in z && k != m
    ensures Keeps(r, z)
  {
    assert (z - {m}).Keys == z.Keys - {m};
    z - {m}
  }

  /** `r` has only members of `z`, with the scores they have there. */
  predicate Keeps(r: ZSet, z: ZSet) {
    forall k <- r :: k in z && r[k] == z[k]
  }

  /** The members in dispatch order. */
  ghost function Order(z: ZSet): (o: seq<Member>)
    ensures |o| == |z|
    decreases |z|
  {
    if |z| == 0 then [] else [First(z)] + Order(Remove(z, First(z)))
  }

  lemma {:induction false} OrderListsMembers(z: ZSet, m: Member)
    ensures m in Order(z) <==> m in z
    decreases |z|
  {
    if |z| == 0 {
      assert |z.Keys| == 0;
    } else {
      OrderListsMembers(Remove(z, First(z)), m);
    }
  }

  /** Every member of `Order` is before all that follow it. */
  lemma {:induction false} OrderIsSorted(z: ZSet, i: nat, j: nat)
    requires i < j < |Order(z)|
    ensures Order(z)[i] in z && Order(z)[j] in z && Before(z, Order(z)[i], Order(z)[j])
    decreases |z|
  {
    var rest := Remove(z, First(z));
    if i > 0 {
      OrderIsSorted(rest, i - 1, j - 1);
      var a, b := Order(rest)[i - 1], Order(rest)[j - 1];
      assert rest[a] == z[a] && rest[b] == z[b];
    } else {
      OrderListsMembers(rest, Order(z)[j]);
    }
  }
}
