/** The checks that run before the canonical-names migration: api/database/migration_preflight.go, over
    plain sequences of rows. */
module Preflight {
  import opened Text
  import opened Claims
  import opened Naming

  datatype PluginRow = PluginRow(id: int, namespace: string, name: string, deleted: bool,
                                 canonical: Option<FirstPartyPlugin>)

  /** A row of plugin_aliases that belongs to a live plugin. */
  datatype AliasRow = AliasRow(alias: string, pluginId: int)

  /** The code's owner strings "first-party:name" and "plugin:id". */
  datatype Owner = Canonical(name: string) | Plugin(id: int)

  predicate LiveFirstParty(p: PluginRow) {
    p.canonical.Some? && !p.deleted
  }

  function OwnerFor(p: PluginRow): Owner {
    if LiveFirstParty(p) then Canonical(p.canonical.value.name) else Plugin(p.id)
  }

  function CanonicalRef(name: string): string {
    NAMESPACE + "/" + name
  }

  function RowRef(p: PluginRow): string {
    if p.canonical.Some? then CanonicalRef(p.canonical.value.name)
    else if p.namespace != "" then p.namespace + "/" + p.name
    else p.name
  }

  // ----- the claims that the loops make, in order -------------------------------------------

  type IdentityClaim = Claim<string, Owner>

  function RowClaims(rows: seq<PluginRow>): seq<IdentityClaim> {
    if rows == [] then []
    else
      var p := rows[|rows| - 1];
      RowClaims(rows[..|rows| - 1]) + if p.deleted then [] else [Claim(Lower(RowRef(p)), OwnerFor(p))]
  }

  function AliasOwner(rows: seq<PluginRow>, id: int): Owner {
    if rows == [] then Plugin(id)
    else if rows[0].id == id then OwnerFor(rows[0])
    else AliasOwner(rows[1..], id)
  }

  function AliasClaims(rows: seq<PluginRow>, aliases: seq<AliasRow>): seq<IdentityClaim> {
    if aliases == [] then []
    else
      var a := aliases[|aliases| - 1];
      AliasClaims(rows, aliases[..|aliases| - 1]) + [Claim(Lower(a.alias), AliasOwner(rows, a.pluginId))]
  }

  function ListClaims(refs: seq<string>, owner: Owner): seq<IdentityClaim> {
    if refs == [] then []
    else ListClaims(refs[..|refs| - 1], owner) + [Claim(Lower(refs[|refs| - 1]), owner)]
  }

  function CanonicalClaims(rows: seq<PluginRow>): seq<IdentityClaim> {
    if rows == [] then []
    else
      var p := rows[|rows| - 1];
      CanonicalClaims(rows[..|rows| - 1]) +
      if LiveFirstParty(p) then ListClaims(p.canonical.value.aliases, OwnerFor(p)) else []
  }

  function AllClaims(rows: seq<PluginRow>, aliases: seq<AliasRow>): seq<IdentityClaim> {
    RowClaims(rows) + AliasClaims(rows, aliases) + CanonicalClaims(rows)
  }

  /** `o`, deleted or not, sits on the canonical identity of the live first-party row `p` without being
      the same first-party plugin. */
  predicate Occupies(o: PluginRow, p: PluginRow)
    requires p.canonical.Some?
  {
    o.id != p.id && EqualFold(o.namespace, NAMESPACE) && EqualFold(o.name, p.canonical.value.name) &&
    (o.canonical.None? || o.canonical.value.name != p.canonical.value.name)
  }

  /** Some row, deleted or not, bears the canonical identity of a live first-party row and is not the same first-party
      plugin. */
  ghost predicate Occupied(rows: seq<PluginRow>) {
    exists p, o :: p in rows && o in rows && TakesPlace(o, p)
  }

  predicate TakesPlace(o: PluginRow, p: PluginRow) {
    && p.canonical.Some? && !p.deleted && o.id != p.id
    && Lower(o.namespace) == "@semrel" && Lower(o.name) == Lower(p.canonical.value.name)
    && !(o.canonical.Some? && o.canonical.value.name == p.canonical.value.name)
  }

  lemma OccupiesExactly(o: PluginRow, p: PluginRow)
    ensures LiveFirstParty(p) && Occupies(o, p) <==> TakesPlace(o, p)
  {
    assert Lower(NAMESPACE) == "@semrel";
  }

  // ----- the loops --------------------------------------------------------------------------

  class ClaimTable {
    var claims: map<string, Owner>

    constructor ()
      ensures Holds([])
    {
      claims := map[];
    }

    method Claim(ref: string, owner: Owner) returns (ok: bool)
      modifies this
      ensures ok <==> Claimable(old(claims), Lower(ref), owner)
      ensures claims == if ok then old(claims)[Lower(ref) := owner] else old(claims)
    {
      var normalized := Lower(ref);
      if normalized in claims && claims[normalized] != owner {
        return false;
      }
      claims := claims[normalized := owner];
      return true;
    }

    /** The table stands for the claims made so far, which agree with each other. */
    ghost predicate Holds(cs: seq<IdentityClaim>)
      reads this
    {
      Consistent(cs) && claims == Table(cs)
    }

    /** Claiming one more reference succeeds exactly when all claims still agree. */
    method ClaimNext(ref: string, owner: Owner, ghost before: seq<IdentityClaim>) returns (ok: bool)
      requires Holds(before)
      modifies this
      ensures ok <==> Consistent(before + [Claims.Claim(Lower(ref), owner)])
      ensures ok ==> Holds(before + [Claims.Claim(Lower(ref), owner)])
    {
      hide Consistent;
      ConsistentStep(before, Claims.Claim(Lower(ref), owner));
      ok := Claim(ref, owner);
    }

    method ClaimRows(rows: seq<PluginRow>) returns (ok: bool)
      requires Holds([])
      modifies this
      ensures ok <==> Consistent(RowClaims(rows))
      ensures ok ==> Holds(RowClaims(rows))
    {
      hide RowRef, OwnerFor, Consistent, Holds, Lower;
      for i := 0 to |rows|
        invariant Holds(RowClaims(rows[..i]))
      {
        assert rows[..i + 1][..i] == rows[..i];
        var p := rows[i];
        if !p.deleted {
          ok := ClaimNext(RowRef(p), OwnerFor(p), RowClaims(rows[..i]));
          if !ok {
            RowClaimsGrow(rows, i + 1);
            ConflictStays(RowClaims(rows[..i + 1]), RowClaims(rows));
            return;
          }
        } else {
          assert RowClaims(rows[..i + 1]) == RowClaims(rows[..i]);
        }
      }
      assert rows[..|rows|] == rows;
      ok := true;
      HoldsAgree(RowClaims(rows));
    }

    lemma HoldsAgree(cs: seq<IdentityClaim>)
      requires Holds(cs)
      ensures Consistent(cs)
    {
    }

    method ClaimAliases(rows: seq<PluginRow>, aliases: seq<AliasRow>, ghost before: seq<IdentityClaim>)
      returns (ok: bool)
      requires Holds(before)
      modifies this
      ensures ok <==> Consistent(before + AliasClaims(rows, aliases))
      ensures ok ==> Holds(before + AliasClaims(rows, aliases))
    {
      hide AliasOwner, Consistent, Holds, Lower;
      assert before + AliasClaims(rows, aliases[..0]) == before;
      for i := 0 to |aliases|
        invariant Holds(before + AliasClaims(rows, aliases[..i]))
      {
        ghost var made, next := before + AliasClaims(rows, aliases[..i]), before + AliasClaims(rows, aliases[..i + 1]);
        assert aliases[..i + 1][..i] == aliases[..i];
        var owner := OwnerOfAlias(rows, aliases[i].pluginId);
        assert made + [Claims.Claim(Lower(aliases[i].alias), owner)] == next;
        ok := ClaimNext(aliases[i].alias, owner, made);
        if !ok {
          AliasClaimsGrow(rows, aliases, i + 1);
          ConflictStays(next, before + AliasClaims(rows, aliases));
          return;
        }
      }
      assert aliases[..|aliases|] == aliases;
      HoldsAgree(before + AliasClaims(rows, aliases));
      ok := true;
    }

    method ClaimList(refs: seq<string>, owner: Owner, ghost before: seq<IdentityClaim>) returns (ok: bool)
      requires Holds(before)
      modifies this
      ensures ok <==> Consistent(before + ListClaims(refs, owner))
      ensures ok ==> Holds(before + ListClaims(refs, owner))
    {
      hide Consistent, Holds, Lower;
      assert before + ListClaims(refs[..0], owner) == before;
      for i := 0 to |refs|
        invariant Holds(before + ListClaims(refs[..i], owner))
      {
        ghost var made, next := before + ListClaims(refs[..i], owner), before + ListClaims(refs[..i + 1], owner);
        assert refs[..i + 1][..i] == refs[..i];
        assert made + [Claims.Claim(Lower(refs[i]), owner)] == next;
        ok := ClaimNext(refs[i], owner, made);
        if !ok {
          ListClaimsGrow(refs, owner, i + 1);
          ConflictStays(next, before + ListClaims(refs, owner));
          return;
        }
      }
      assert refs[..|refs|] == refs;
      HoldsAgree(before + ListClaims(refs, owner));
      ok := true;
    }

    method ClaimCanonical(rows: seq<PluginRow>, ghost before: seq<IdentityClaim>) returns (ok: bool)
      requires Holds(before)
      modifies this
      ensures ok <==> Consistent(before + CanonicalClaims(rows))
    {
      hide OwnerFor, Consistent, Holds, ListClaims;
      assert before + CanonicalClaims(rows[..0]) == before;
      for i := 0 to |rows|
        invariant Holds(before + CanonicalClaims(rows[..i]))
      {
        ghost var made, next := before + CanonicalClaims(rows[..i]), before + CanonicalClaims(rows[..i + 1]);
        assert rows[..i + 1][..i] == rows[..i];
        var p := rows[i];
        if LiveFirstParty(p) {
          assert made + ListClaims(p.canonical.value.aliases, OwnerFor(p)) == next;
          ok := ClaimList(p.canonical.value.aliases, OwnerFor(p), made);
          if !ok {
            CanonicalClaimsGrow(rows, i + 1);
            ConflictStays(next, before + CanonicalClaims(rows));
            return;
          }
        } else {
          assert made == next;
        }
      }
      assert rows[..|rows|] == rows;
      HoldsAgree(before + CanonicalClaims(rows));
      ok := true;
    }
  }

  method OwnerOfAlias(rows: seq<PluginRow>, id: int) returns (owner: Owner)
    ensures owner == AliasOwner(rows, id)
  {
    for i := 0 to |rows|
      invariant AliasOwner(rows, id) == AliasOwner(rows[i..], id)
    {
      if rows[i].id == id {
        return OwnerFor(rows[i]);
      }
    }
    return Plugin(id);
  }

  lemma {:induction false} RowClaimsGrow(rows: seq<PluginRow>, i: nat)
    requires i <= |rows|
    ensures RowClaims(rows[..i]) <= RowClaims(rows)
    decreases |rows| - i
  {
    if i == |rows| { assert rows[..i] == rows; } else {
      assert rows[..i + 1][..i] == rows[..i];
      RowClaimsGrow(rows, i + 1);
    }
  }

  lemma {:induction false} AliasClaimsGrow(rows: seq<PluginRow>, aliases: seq<AliasRow>, i: nat)
    requires i <= |aliases|
    ensures AliasClaims(rows, aliases[..i]) <= AliasClaims(rows, aliases)
    decreases |aliases| - i
  {
    if i == |aliases| { assert aliases[..i] == aliases; } else {
      assert aliases[..i + 1][..i] == aliases[..i];
      AliasClaimsGrow(rows, aliases, i + 1);
    }
  }

  lemma {:induction false} ListClaimsGrow(refs: seq<string>, owner: Owner, i: nat)
    requires i <= |refs|
    ensures ListClaims(refs[..i], owner) <= ListClaims(refs, owner)
    decreases |refs| - i
  {
    if i == |refs| { assert refs[..i] == refs; } else {
      assert refs[..i + 1][..i] == refs[..i];
      ListClaimsGrow(refs, owner, i + 1);
    }
  }

  lemma {:induction false} CanonicalClaimsGrow(rows: seq<PluginRow>, i: nat)
    requires i <= |rows|
    ensures CanonicalClaims(rows[..i]) <= CanonicalClaims(rows)
    decreases |rows| - i
  {
    if i == |rows| { assert rows[..i] == rows; } else {
      assert rows[..i + 1][..i] == rows[..i];
      CanonicalClaimsGrow(rows, i + 1);
    }
  }

  method CheckOccupied(rows: seq<PluginRow>) returns (ok: bool)
    ensures ok <==> !Occupied(rows)
  {
    hide Occupies, TakesPlace;
    for i := 0 to |rows|
      invariant forall k, m :: 0 <= k < i && 0 <= m < |rows| ==> !TakesPlace(rows[m], rows[k])
    {
      var p := rows[i];
      for j := 0 to |rows|
        invariant forall m :: 0 <= m < j ==> !TakesPlace(rows[m], p)
      {
        OccupiesExactly(rows[j], p);
        if LiveFirstParty(p) && Occupies(rows[j], p) {
          return false;
        }
      }
    }
    return true;
  }

  /** The identity part of preflightCanonicalNamesMigration; without an alias table `aliases` is empty. */
  method PreflightIdentities(rows: seq<PluginRow>, aliases: seq<AliasRow>) returns (ok: bool)
    ensures ok <==> !Occupied(rows) && Unambiguous(rows, aliases)
  {
    hide Consistent, Occupied, Unambiguous;
    VerdictIsUniqueness(rows, aliases);
    ok := CheckOccupied(rows);
    if !ok {
      return;
    }
    var table := new ClaimTable();
    ghost var first := RowClaims(rows);
    ghost var second := first + AliasClaims(rows, aliases);
    assert AllClaims(rows, aliases) == second + CanonicalClaims(rows);
    ok := table.ClaimRows(rows);
    if !ok {
      assert first <= AllClaims(rows, aliases);
      ConflictStays(first, AllClaims(rows, aliases));
      return;
    }
    ok := table.ClaimAliases(rows, aliases, first);
    if !ok {
      ConflictStays(second, AllClaims(rows, aliases));
      return;
    }
    ok := table.ClaimCanonical(rows, second);
  }

  // ----- what a success means ---------------------------------------------------------------

  /** A live first-party row stands for its canonical name, any other row for itself. */
  predicate StandsFor(p: PluginRow, owner: Owner) {
    owner == if p.canonical.Some? && !p.deleted then Canonical(p.canonical.value.name) else Plugin(p.id)
  }

  /** The folded reference of a row: "@semrel/name" if it is first-party, else its own, with or without a namespace. */
  predicate GoesBy(p: PluginRow, ref: string) {
    match p.canonical
    case Some(c) => ref == Lower("@semrel/" + c.name)
    case None => ref == OwnReference(p)
  }

  function OwnReference(p: PluginRow): string {
    Lower(if p.namespace == "" then p.name else p.namespace + "/" + p.name)
  }

  /** An alias stands for the first row of its plugin, or for the plugin alone if there is none. */
  ghost predicate AliasStandsFor(rows: seq<PluginRow>, id: int, owner: Owner) {
    if exists p :: p in rows && p.id == id
    then exists i :: 0 <= i < |rows| && rows[i].id == id && (forall k :: 0 <= k < i ==> rows[k].id != id) &&
                     StandsFor(rows[i], owner)
    else owner == Plugin(id)
  }

  /** Row by row, which claims are made: no order, no loops. */
  ghost predicate Claimed(rows: seq<PluginRow>, aliases: seq<AliasRow>, ref: string, owner: Owner) {
    || (exists p :: p in rows && !p.deleted && StandsFor(p, owner) && GoesBy(p, ref))
    || (exists a :: a in aliases && AliasStandsFor(rows, a.pluginId, owner) && ref == Lower(a.alias))
    || (exists p :: p in rows && !p.deleted && p.canonical.Some? && StandsFor(p, owner) &&
                    Lists(p.canonical.value.aliases, ref))
  }

  /** No folded reference has two owners. */
  ghost predicate Unambiguous(rows: seq<PluginRow>, aliases: seq<AliasRow>) {
    forall ref, o1, o2 :: Claimed(rows, aliases, ref, o1) && Claimed(rows, aliases, ref, o2) ==> o1 == o2
  }

  lemma OwnerStands(p: PluginRow, owner: Owner)
    ensures StandsFor(p, owner) <==> owner == OwnerFor(p)
  {
  }

  lemma RefGoes(p: PluginRow, ref: string)
    ensures GoesBy(p, ref) <==> ref == Lower(RowRef(p))
  {
    assert CanonicalRef("") == "@semrel/";
    assert forall c: string :: CanonicalRef(c) == "@semrel/" + c;
  }

  lemma {:induction false} AliasStands(rows: seq<PluginRow>, id: int, owner: Owner)
    ensures AliasStandsFor(rows, id, owner) <==> owner == AliasOwner(rows, id)
  {
    hide OwnerFor, StandsFor;
    FirstRowOwns(rows, id);
    forall p
      ensures StandsFor(p, owner) <==> owner == OwnerFor(p)
    {
      OwnerStands(p, owner);
    }
  }

  lemma {:induction false} FirstRowOwns(rows: seq<PluginRow>, id: int)
    ensures (forall p :: p in rows ==> p.id != id) ==> AliasOwner(rows, id) == Plugin(id)
    ensures forall i :: 0 <= i < |rows| && rows[i].id == id && (forall k :: 0 <= k < i ==> rows[k].id != id) ==>
      AliasOwner(rows, id) == OwnerFor(rows[i])
    ensures (exists p :: p in rows && p.id == id) ==>
      exists i :: 0 <= i < |rows| && rows[i].id == id && forall k :: 0 <= k < i ==> rows[k].id != id
  {
    hide OwnerFor;
    if rows != [] && rows[0].id != id {
      FirstRowOwns(rows[1..], id);
      assert rows == [rows[0]] + rows[1..];
      if i :| 0 <= i < |rows[1..]| && rows[1..][i].id == id && forall k :: 0 <= k < i ==> rows[1..][k].id != id {
        assert rows[i + 1].id == id && forall k :: 0 <= k < i + 1 ==> rows[k].id != id;
      }
      forall i | 0 <= i < |rows| && rows[i].id == id && forall k :: 0 <= k < i ==> rows[k].id != id
        ensures AliasOwner(rows, id) == OwnerFor(rows[i])
      {
        assert rows[1..][i - 1] == rows[i] && forall k :: 0 <= k < i - 1 ==> rows[1..][k].id != id;
      }
    }
  }

  predicate Lists(refs: seq<string>, folded: string) {
    exists r :: r in refs && Lower(r) == folded
  }

  lemma {:induction false} RowClaimsMembers(rows: seq<PluginRow>, c: IdentityClaim)
    ensures c in RowClaims(rows) <==> exists p :: p in rows && !p.deleted && c == Claim(Lower(RowRef(p)), OwnerFor(p))
  {
    hide RowRef, OwnerFor, Lower;
    if rows != [] {
      RowClaimsMembers(rows[..|rows| - 1], c);
      assert rows == rows[..|rows| - 1] + [rows[|rows| - 1]];
    }
  }

  lemma {:induction false} AliasClaimsMembers(rows: seq<PluginRow>, aliases: seq<AliasRow>, c: IdentityClaim)
    ensures c in AliasClaims(rows, aliases) <==>
      exists a :: a in aliases && c == Claim(Lower(a.alias), AliasOwner(rows, a.pluginId))
  {
    hide AliasOwner, Lower;
    if aliases != [] {
      AliasClaimsMembers(rows, aliases[..|aliases| - 1], c);
      assert aliases == aliases[..|aliases| - 1] + [aliases[|aliases| - 1]];
    }
  }

  lemma {:induction false} ListClaimsMembers(refs: seq<string>, owner: Owner, c: IdentityClaim)
    ensures c in ListClaims(refs, owner) <==> c.owner == owner && Lists(refs, c.ref)
  {
    hide Lower;
    if refs != [] {
      ListClaimsMembers(refs[..|refs| - 1], owner, c);
      assert refs == refs[..|refs| - 1] + [refs[|refs| - 1]];
    }
  }

  lemma {:induction false} CanonicalClaimsMembers(rows: seq<PluginRow>, c: IdentityClaim)
    ensures c in CanonicalClaims(rows) <==>
      exists p :: p in rows && LiveFirstParty(p) && c.owner == OwnerFor(p) && Lists(p.canonical.value.aliases, c.ref)
  {
    hide OwnerFor, Lists;
    if rows != [] {
      var p := rows[|rows| - 1];
      CanonicalClaimsMembers(rows[..|rows| - 1], c);
      if LiveFirstParty(p) {
        ListClaimsMembers(p.canonical.value.aliases, OwnerFor(p), c);
      }
      assert rows == rows[..|rows| - 1] + [p];
    }
  }

  lemma ClaimedIsListed(rows: seq<PluginRow>, aliases: seq<AliasRow>, ref: string, o: Owner)
    ensures Claimed(rows, aliases, ref, o) <==> Claim(ref, o) in AllClaims(rows, aliases)
  {
    hide RowRef, OwnerFor, AliasOwner, Lists, Lower, StandsFor, GoesBy, AliasStandsFor;
    RowClaimsMembers(rows, Claim(ref, o));
    AliasClaimsMembers(rows, aliases, Claim(ref, o));
    CanonicalClaimsMembers(rows, Claim(ref, o));
    forall p
      ensures (StandsFor(p, o) <==> o == OwnerFor(p)) && (GoesBy(p, ref) <==> ref == Lower(RowRef(p)))
    {
      OwnerStands(p, o);
      RefGoes(p, ref);
    }
    forall id
      ensures AliasStandsFor(rows, id, o) <==> o == AliasOwner(rows, id)
    {
      AliasStands(rows, id, o);
    }
  }

  /** The claim loops agree exactly when no folded reference has two owners, where live first-party rows of
      one canonical name are one owner. */
  lemma VerdictIsUniqueness(rows: seq<PluginRow>, aliases: seq<AliasRow>)
    ensures Consistent(AllClaims(rows, aliases)) <==> Unambiguous(rows, aliases)
  {
    hide Claimed, AllClaims;
    var cs := AllClaims(rows, aliases);
    forall ref, o
      ensures Claimed(rows, aliases, ref, o) <==> Claim(ref, o) in cs
    {
      ClaimedIsListed(rows, aliases, ref, o);
    }
    if Consistent(cs) {
      forall ref, o1, o2 | Claimed(rows, aliases, ref, o1) && Claimed(rows, aliases, ref, o2)
        ensures o1 == o2
      {
        assert Claim(ref, o1) in cs && Claim(ref, o2) in cs;
      }
    } else {
      var c, d :| c in cs && d in cs && c.ref == d.ref && c.owner != d.owner;
      assert Claim(c.ref, c.owner) in cs && Claim(d.ref, d.owner) in cs;
      assert Claimed(rows, aliases, c.ref, c.owner) && Claimed(rows, aliases, c.ref, d.owner);
    }
  }

  /** Plugins that are not first-party and have no aliases pass exactly when the folded references of the live ones
      are pairwise distinct. */
  lemma ForeignRowsExactly(rows: seq<PluginRow>)
    requires DistinctIds(rows) && forall p :: p in rows ==> p.canonical.None?
    ensures !Occupied(rows) && Unambiguous(rows, []) <==>
      forall p, q :: p in rows && q in rows && !p.deleted && !q.deleted && p != q ==> OwnReference(p) != OwnReference(q)
  {
    hide Lower;
    forall p, q | p in rows && q in rows && p != q
      ensures p.id != q.id
    {
      var i, j :| 0 <= i < |rows| && 0 <= j < |rows| && rows[i] == p && rows[j] == q;
    }
    if Unambiguous(rows, []) {
      forall p, q | p in rows && q in rows && !p.deleted && !q.deleted && p != q
        ensures OwnReference(p) != OwnReference(q)
      {
        assert Claimed(rows, [], OwnReference(p), Plugin(p.id));
        assert OwnReference(p) == OwnReference(q) ==> Claimed(rows, [], OwnReference(p), Plugin(q.id));
      }
    }
  }

  /** The ids are a primary key. */
  predicate DistinctIds(rows: seq<PluginRow>) {
    forall i, j :: 0 <= i < |rows| && 0 <= j < |rows| && rows[i].id == rows[j].id ==> i == j
  }

  lemma {:induction false} AliasOwnerIsRowOwner(rows: seq<PluginRow>, id: int)
    requires DistinctIds(rows)
    ensures forall p :: p in rows && p.id == id ==> AliasOwner(rows, id) == OwnerFor(p)
    ensures (forall p :: p in rows ==> p.id != id) ==> AliasOwner(rows, id) == Plugin(id)
  {
    hide OwnerFor;
    if rows != [] && rows[0].id != id {
      AliasOwnerIsRowOwner(rows[1..], id);
    }
  }

  lemma SameAliasOwner(rows: seq<PluginRow>, rows': seq<PluginRow>, id: int)
    requires DistinctIds(rows) && DistinctIds(rows')
    requires forall p :: p in rows <==> p in rows'
    ensures AliasOwner(rows, id) == AliasOwner(rows', id)
  {
    hide AliasOwner, OwnerFor;
    AliasOwnerIsRowOwner(rows, id);
    AliasOwnerIsRowOwner(rows', id);
  }

  lemma SameClaims(rows: seq<PluginRow>, rows': seq<PluginRow>, aliases: seq<AliasRow>, aliases': seq<AliasRow>,
                   ref: string, o: Owner)
    requires (forall p :: p in rows ==> p in rows') && (forall a :: a in aliases ==> a in aliases')
    requires forall id :: AliasOwner(rows, id) == AliasOwner(rows', id)
    ensures Claimed(rows, aliases, ref, o) ==> Claimed(rows', aliases', ref, o)
  {
    hide AliasOwner, AliasStandsFor, StandsFor, GoesBy, Lists, Lower;
    forall id
      ensures AliasStandsFor(rows, id, o) <==> AliasStandsFor(rows', id, o)
    {
      AliasStands(rows, id, o);
      AliasStands(rows', id, o);
    }
  }

  /** The verdict does not depend on the order in which either table is read. */
  lemma OrderIndependent(rows: seq<PluginRow>, rows': seq<PluginRow>, aliases: seq<AliasRow>, aliases': seq<AliasRow>)
    requires DistinctIds(rows) && DistinctIds(rows')
    requires (forall p :: p in rows <==> p in rows') && (forall a :: a in aliases <==> a in aliases')
    ensures Occupied(rows) <==> Occupied(rows')
    ensures Unambiguous(rows, aliases) <==> Unambiguous(rows', aliases')
  {
    hide Claimed, AliasOwner, AllClaims, Consistent, TakesPlace;
    forall id
      ensures AliasOwner(rows, id) == AliasOwner(rows', id)
    {
      SameAliasOwner(rows, rows', id);
    }
    forall ref, o
      ensures Claimed(rows, aliases, ref, o) <==> Claimed(rows', aliases', ref, o)
    {
      SameClaims(rows, rows', aliases, aliases', ref, o);
      SameClaims(rows', rows, aliases', aliases, ref, o);
    }
  }

  // ----- version metadata and checksums -------------------------------------------------------

  datatype Metadata = Metadata(releaseDate: Option<int>, changelog: Option<string>, downloadUrl: string,
                               prerelease: bool)

  datatype VersionRow = VersionRow(pluginId: int, version: string, metadata: Metadata)

  datatype ChecksumRow = ChecksumRow(pluginId: int, version: string, platform: string, algorithm: string, hash: string)

  /** The owners of the live first-party rows, and of nothing else. */
  method PluginOwners(rows: seq<PluginRow>) returns (owners: map<int, Owner>)
    requires DistinctIds(rows)
    ensures forall i :: 0 <= i < |rows| && LiveFirstParty(rows[i]) ==>
              rows[i].id in owners && owners[rows[i].id] == OwnerFor(rows[i])
    ensures forall id :: id in owners ==> exists i :: 0 <= i < |rows| && LiveFirstParty(rows[i]) && rows[i].id == id
  {
    hide OwnerFor;
    owners := map[];
    for k := 0 to |rows|
      invariant forall i :: 0 <= i < k && LiveFirstParty(rows[i]) ==>
                  rows[i].id in owners && owners[rows[i].id] == OwnerFor(rows[i])
      invariant forall id :: id in owners ==> exists i :: 0 <= i < k && LiveFirstParty(rows[i]) && rows[i].id == id
    {
      if LiveFirstParty(rows[k]) {
        owners := owners[rows[k].id := OwnerFor(rows[k])];
      }
    }
  }

  /** equalTime and equalString: both missing, or both present and the same instant or text. */
  predicate SameOptional<T(==)>(left: Option<T>, right: Option<T>) {
    if left == None || right == None then left == None && right == None else left.value == right.value
  }

  predicate SameMetadata(m: Metadata, n: Metadata) {
    && SameOptional(m.releaseDate, n.releaseDate) && SameOptional(m.changelog, n.changelog)
    && m.downloadUrl == n.downloadUrl && m.prerelease == n.prerelease
  }

  predicate SameVersion(owners: map<int, Owner>, r: VersionRow, q: VersionRow) {
    r.pluginId in owners && q.pluginId in owners && owners[r.pluginId] == owners[q.pluginId] && r.version == q.version
  }

  /** Succeeds exactly when all rows of one owner and version agree on their metadata. */
  method CheckVersions(owners: map<int, Owner>, rows: seq<VersionRow>) returns (ok: bool)
    ensures ok <==> forall i, j :: 0 <= i < |rows| && 0 <= j < |rows| && SameVersion(owners, rows[i], rows[j]) ==>
                      rows[i].metadata == rows[j].metadata
  {
    var versions: map<(Owner, string), Metadata> := map[];
    for i := 0 to |rows|
      invariant forall k :: 0 <= k < i && rows[k].pluginId in owners ==>
        var key := (owners[rows[k].pluginId], rows[k].version);
        key in versions && versions[key] == rows[k].metadata
      invariant forall key :: key in versions ==>
        exists k :: 0 <= k < i && rows[k].pluginId in owners && key == (owners[rows[k].pluginId], rows[k].version)
    {
      var row := rows[i];
      if row.pluginId in owners {
        var key := (owners[row.pluginId], row.version);
        if key in versions && !SameMetadata(versions[key], row.metadata) {
          ghost var k :| 0 <= k < i && rows[k].pluginId in owners && key == (owners[rows[k].pluginId], rows[k].version);
          assert SameVersion(owners, rows[k], rows[i]);
          return false;
        }
        assert key in versions ==> versions[key] == row.metadata;
        versions := versions[key := row.metadata];
      }
    }
    return true;
  }

  predicate SameArtifact(owners: map<int, Owner>, r: ChecksumRow, q: ChecksumRow) {
    r.pluginId in owners && q.pluginId in owners && owners[r.pluginId] == owners[q.pluginId] &&
    r.version == q.version && EqualFold(r.platform, q.platform)
  }

  function ChecksumKey(owners: map<int, Owner>, r: ChecksumRow): (Owner, string, string)
    requires r.pluginId in owners
  {
    (owners[r.pluginId], r.version, Lower(r.platform))
  }

  /** Succeeds exactly when all rows of one owner, version and folded platform agree on their checksum. */
  method CheckChecksums(owners: map<int, Owner>, rows: seq<ChecksumRow>) returns (ok: bool)
    ensures ok <==> forall i, j :: 0 <= i < |rows| && 0 <= j < |rows| && SameArtifact(owners, rows[i], rows[j]) ==>
                      rows[i].algorithm == rows[j].algorithm && rows[i].hash == rows[j].hash
  {
    hide Lower;
    var checksums: map<(Owner, string, string), (string, string)> := map[];
    for i := 0 to |rows|
      invariant forall k :: 0 <= k < i && rows[k].pluginId in owners ==>
        var key := ChecksumKey(owners, rows[k]);
        key in checksums && checksums[key] == (rows[k].algorithm, rows[k].hash)
      invariant forall key :: key in checksums ==>
        exists k :: 0 <= k < i && rows[k].pluginId in owners && key == ChecksumKey(owners, rows[k])
    {
      var row := rows[i];
      if row.pluginId in owners {
        var key, value := ChecksumKey(owners, row), (row.algorithm, row.hash);
        if key in checksums && checksums[key] != value {
          ghost var k :| 0 <= k < i && rows[k].pluginId in owners && key == ChecksumKey(owners, rows[k]);
          assert SameArtifact(owners, rows[k], rows[i]);
          return false;
        }
        checksums := checksums[key := value];
      }
    }
    return true;
  }

  // ----- the whole preflight ------------------------------------------------------------------

  /** The merge unites the plugins `a` and `b`: live first-party rows of one canonical name. */
  predicate Merged(rows: seq<PluginRow>, a: int, b: int) {
    exists i, j :: 0 <= i < |rows| && 0 <= j < |rows| && rows[i].id == a && rows[j].id == b &&
      !rows[i].deleted && !rows[j].deleted && rows[i].canonical.Some? && rows[j].canonical.Some? &&
      rows[i].canonical.value.name == rows[j].canonical.value.name
  }

  /** Versions that the merge would unite carry the same metadata. */
  ghost predicate VersionsAgree(rows: seq<PluginRow>, vs: seq<VersionRow>) {
    forall i, j | 0 <= i < |vs| && 0 <= j < |vs| ::
      Merged(rows, vs[i].pluginId, vs[j].pluginId) && vs[i].version == vs[j].version ==>
      vs[i].metadata == vs[j].metadata
  }

  ghost predicate ChecksumsAgree(rows: seq<PluginRow>, cs: seq<ChecksumRow>) {
    forall i, j | 0 <= i < |cs| && 0 <= j < |cs| ::
      (Merged(rows, cs[i].pluginId, cs[j].pluginId) &&
       cs[i].version == cs[j].version && EqualFold(cs[i].platform, cs[j].platform)) ==>
      cs[i].algorithm == cs[j].algorithm && cs[i].hash == cs[j].hash
  }

  lemma OwnersMerge(rows: seq<PluginRow>, owners: map<int, Owner>, a: int, b: int)
    requires DistinctIds(rows)
    requires forall i :: 0 <= i < |rows| && LiveFirstParty(rows[i]) ==>
               rows[i].id in owners && owners[rows[i].id] == OwnerFor(rows[i])
    requires forall id :: id in owners ==> exists i :: 0 <= i < |rows| && LiveFirstParty(rows[i]) && rows[i].id == id
    ensures Merged(rows, a, b) <==> a in owners && b in owners && owners[a] == owners[b]
  {
  }

  /** The preflight succeeds exactly when the merged catalogue will be well defined: canonical identities are
      free, no folded reference has two owners, and what the merge unites agrees. */
  method PreflightCanonicalNamesMigration(rows: seq<PluginRow>, aliases: seq<AliasRow>, versions: seq<VersionRow>,
                                          checksums: seq<ChecksumRow>) returns (ok: bool)
    requires DistinctIds(rows)
    ensures ok <==> !Occupied(rows) && Unambiguous(rows, aliases) &&
                    VersionsAgree(rows, versions) && ChecksumsAgree(rows, checksums)
  {
    hide Unambiguous, Occupied, Merged, Lower, OwnerFor;
    ok := PreflightIdentities(rows, aliases);
    if !ok {
      return;
    }
    var owners := PluginOwners(rows);
    forall a, b
      ensures Merged(rows, a, b) <==> a in owners && b in owners && owners[a] == owners[b]
    {
      OwnersMerge(rows, owners, a, b);
    }
    ok := CheckVersions(owners, versions);
    assert ok <==> VersionsAgree(rows, versions);
    if !ok {
      return;
    }
    ok := CheckChecksums(owners, checksums);
    assert ok <==> ChecksumsAgree(rows, checksums);
  }
}
