/** One-pass claim checking: a map from references to owners that refuses a second owner. */
module Claims {

  datatype Claim<K, O> = Claim(ref: K, owner: O)

  /** Nobody claims a reference that somebody else claims. */
  ghost predicate Consistent<K, O>(cs: seq<Claim<K, O>>) {
    forall c, d :: c in cs && d in cs && c.ref == d.ref ==> c.owner == d.owner
  }

  /** The map that recording the claims in order leaves behind. */
  function Table<K(==), O>(cs: seq<Claim<K, O>>): (t: map<K, O>)
    ensures forall c :: c in cs ==> c.ref in t
    ensures forall r :: r in t ==> Claim(r, t[r]) in cs
  {
    if cs == [] then map[]
    else
      var last := cs[|cs| - 1];
      assert forall c :: c in cs ==> c in cs[..|cs| - 1] || c == last;
      Table(cs[..|cs| - 1])[last.ref := last.owner]
  }

  /** A reference may be claimed when it is free or already the claimant's. */
  predicate Claimable<K, O(==)>(t: map<K, O>, ref: K, owner: O) {
    ref in t ==> t[ref] == owner
  }

  /** Checking each claim against the map so far decides consistency of the whole list. */
  lemma ConsistentStep<K, O>(cs: seq<Claim<K, O>>, c: Claim<K, O>)
    requires Consistent(cs)
    ensures Consistent(cs + [c]) <==> Claimable(Table(cs), c.ref, c.owner)
    ensures Table(cs + [c]) == Table(cs)[c.ref := c.owner]
  {
    assert (cs + [c])[..|cs|] == cs;
    assert forall d :: d in cs + [c] <==> d in cs || d == c;
    if c.ref in Table(cs) {
      assert Claim(c.ref, Table(cs)[c.ref]) in cs + [c] && c in cs + [c];
    }
  }

  lemma ConflictStays<K, O>(cs: seq<Claim<K, O>>, ds: seq<Claim<K, O>>)
    requires cs <= ds && !Consistent(cs)
    ensures !Consistent(ds)
  {
    assert forall c :: c in cs ==> c in ds;
  }
}
