/** The claim map of the live catalogue: which plugin owns which folded reference, and the check that keeps it
    a map (ensureUniqueIdentity of api/repository/file_repo.go). */
module Ownership {
  import opened Text
  import opened Sorting
  import opened Models
  import opened Identity

  type Plugins = map<int, Plugin>

  /** Everything a plugin answers to, folded: its own reference and its aliases. */
  function Keys(p: Plugin): (keys: seq<string>)
    ensures |keys| == |p.aliases| + 1
  {
    [Lower(p.Ref())] + Folds(p.aliases)
  }

  ghost predicate Clash(a: seq<string>, b: seq<string>) {
    exists k :: k in a && k in b
  }

  /** No live plugin other than `except` answers to any of `keys`. */
  ghost predicate Free(plugins: Plugins, keys: seq<string>, except: int) {
    forall id :: id in plugins && plugins[id].Live() && id != except ==> !Clash(keys, Keys(plugins[id]))
  }

  /** The identity rule: live plugins' folded references are pairwise distinct, within one plugin and across. */
  ghost predicate UniqueIdentities(plugins: Plugins) {
    forall id :: id in plugins && plugins[id].Live() ==>
      Distinct(Keys(plugins[id])) && Free(plugins, Keys(plugins[id]), id)
  }

  predicate Owns(plugins: Plugins, key: string, id: int) {
    id in plugins && plugins[id].Live() && key in Keys(plugins[id])
  }

  /** Distinct and new to `seen`, one key at a time. */
  method EnsureUniqueIdentity(all: seq<Plugin>, candidate: Plugin, excludeID: int) returns (ok: bool)
    ensures ok <==> Distinct(Keys(candidate)) &&
                    forall p :: p in all && p.Live() && p.id != excludeID ==> !Clash(Keys(candidate), Keys(p))
  {
    hide Lower, Trim;
    var refs := {Lower(candidate.Ref())};
    ghost var keys := Keys(candidate);
    for i := 0 to |candidate.aliases|
      invariant Distinct(keys[..i + 1])
      invariant forall k :: k in refs <==> k in keys[..i + 1]
    {
      var key := Lower(Trim(candidate.aliases[i]));
      assert key == keys[i + 1];
      if key in refs {
        ghost var j :| 0 <= j <= i && keys[j] == key;
        return false;
      }
      refs := refs + {key};
      assert keys[..i + 2] == keys[..i + 1] + [key];
    }
    assert keys[..|candidate.aliases| + 1] == keys;
    for i := 0 to |all|
      invariant forall m :: 0 <= m < i && all[m].Live() && all[m].id != excludeID ==> !Clash(keys, Keys(all[m]))
    {
      if !all[i].Live() || all[i].id == excludeID {
        continue;
      }
      var clash := AnyIn(Keys(all[i]), refs);
      if clash {
        return false;
      }
    }
    return true;
  }

  method AnyIn(keys: seq<string>, refs: set<string>) returns (found: bool)
    ensures found <==> exists k :: k in keys && k in refs
  {
    for i := 0 to |keys|
      invariant forall m :: 0 <= m < i ==> keys[m] !in refs
    {
      if keys[i] in refs {
        return true;
      }
    }
    return false;
  }

  // ----- the claim map --------------------------------------------------------------------------

  lemma OneOwner(plugins: Plugins, key: string, a: int, b: int)
    requires UniqueIdentities(plugins) && Owns(plugins, key, a) && Owns(plugins, key, b)
    ensures a == b
  {
    assert Clash(Keys(plugins[a]), Keys(plugins[b]));
  }

  /** The owner of every owned reference. */
  ghost function Owners(plugins: Plugins): map<string, int> {
    map key | key in AllKeys(plugins) :: OwnerOf(plugins, key)
  }

  ghost function AllKeys(plugins: Plugins): set<string> {
    set id, key | id in plugins && key in Keys(plugins[id]) && Owns(plugins, key, id) :: key
  }

  ghost function OwnerOf(plugins: Plugins, key: string): int
    requires key in AllKeys(plugins)
  {
    var id :| Owns(plugins, key, id); id
  }

  lemma OwnersAreOwns(plugins: Plugins, key: string, id: int)
    requires UniqueIdentities(plugins)
    ensures Owns(plugins, key, id) <==> key in Owners(plugins) && Owners(plugins)[key] == id
  {
  }

  /** A map with exactly these pairs is the claim map. */
  lemma OwnersDetermined(plugins: Plugins, m: map<string, int>)
    requires UniqueIdentities(plugins)
    requires forall key, id :: Owns(plugins, key, id) <==> key in m && m[key] == id
    ensures Owners(plugins) == m
  {
    hide Keys, Owners, UniqueIdentities;
    forall key
      ensures key in Owners(plugins) <==> key in m
      ensures key in m ==> Owners(plugins)[key] == m[key]
    {
      if key in Owners(plugins) {
        OwnersAreOwns(plugins, key, Owners(plugins)[key]);
        assert Owns(plugins, key, Owners(plugins)[key]);
      }
      if key in m {
        assert Owns(plugins, key, m[key]);
        OwnersAreOwns(plugins, key, m[key]);
      }
    }
  }

  function Claiming(keys: seq<string>, id: int): map<string, int> {
    map key | key in keys :: id
  }

  function Releasing(owners: map<string, int>, id: int): map<string, int> {
    map key | key in owners && owners[key] != id :: owners[key]
  }

  /** References are free exactly when the claim map gives them to nobody else. */
  lemma FreeInOwners(plugins: Plugins, keys: seq<string>, except: int)
    requires UniqueIdentities(plugins)
    ensures Free(plugins, keys, except) <==>
      forall key :: key in keys && key in Owners(plugins) ==> Owners(plugins)[key] == except
  {
  }

  /** Storing a live plugin under `id` whose references are distinct and otherwise free keeps the identity rule,
      and hands exactly its references to `id`. */
  lemma StoreLive(plugins: Plugins, id: int, p: Plugin)
    requires UniqueIdentities(plugins) && p.Live()
    requires Distinct(Keys(p)) && Free(plugins, Keys(p), id)
    ensures UniqueIdentities(plugins[id := p])
    ensures Owners(plugins[id := p]) == Releasing(Owners(plugins), id) + Claiming(Keys(p), id)
  {
    hide Keys, Distinct;
    var after := plugins[id := p];
    assert UniqueIdentities(after) by {
      forall other | other in after && after[other].Live()
        ensures Distinct(Keys(after[other])) && Free(after, Keys(after[other]), other)
      {
        if other != id {
          assert !Clash(Keys(p), Keys(plugins[other]));
        }
      }
    }
    hide UniqueIdentities, Free, Owners;
    var m := Releasing(Owners(plugins), id) + Claiming(Keys(p), id);
    forall key, o
      ensures Owns(after, key, o) <==> key in m && m[key] == o
    {
      OwnersAreOwns(plugins, key, o);
      FreeInOwners(plugins, Keys(p), id);
    }
    OwnersDetermined(after, m);
  }

  /** Storing a deleted plugin under `id` keeps the identity rule and releases exactly the references of `id`. */
  lemma StoreDeleted(plugins: Plugins, id: int, p: Plugin)
    requires UniqueIdentities(plugins) && !p.Live()
    ensures UniqueIdentities(plugins[id := p])
    ensures Owners(plugins[id := p]) == Releasing(Owners(plugins), id)
  {
    hide Keys, Distinct;
    var after := plugins[id := p];
    assert UniqueIdentities(after);
    hide UniqueIdentities, Free, Owners;
    var m := Releasing(Owners(plugins), id);
    forall key, o
      ensures Owns(after, key, o) <==> key in m && m[key] == o
    {
      OwnersAreOwns(plugins, key, o);
    }
    OwnersDetermined(after, m);
  }

  // ----- references, exactly --------------------------------------------------------------------

  /** What a plugin answers to, exactly: its folded "namespace/name", or its folded name if it has no namespace, and
      each of its aliases, trimmed and folded. */
  lemma KeysExactly(p: Plugin, k: string)
    ensures k in Keys(p) <==>
      k == Lower(if p.namespace == "" then p.name else p.namespace + "/" + p.name) ||
      exists a :: a in p.aliases && k == Lower(Trim(a))
  {
    hide Trim, Lower, Folds;
    FoldsExactly(p.aliases, k);
  }
}
