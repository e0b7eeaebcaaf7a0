/** Redis seat locks as the `seat-lock.lua` and `seat-unlock.lua` scripts take and give them back. */
module LockStore {
  import opened Prelude

  ghost function Granted<K(!new)>(keys: seq<K>, token: Id): map<K, Id> {
    map k | k in Elements(keys) :: token
  }

  /** What `SET NX` on each key in turn needs: no key is taken, and none comes twice. */
  ghost predicate Grantable<K(!new)>(held: map<K, Id>, keys: seq<K>) {
    Distinct(keys) && forall k :: k in keys ==> k !in held
  }

  lemma GrantOneMore<K(!new)>(before: map<K, Id>, keys: seq<K>, i: nat, token: Id)
    requires i < |keys|
    ensures (before + Granted(keys[..i], token))[keys[i] := token] == before + Granted(keys[..i + 1], token)
    ensures Distinct(keys[..i]) && keys[i] !in Elements(keys[..i]) ==> Distinct(keys[..i + 1])
    ensures Elements(keys[..i + 1]) == Elements(keys[..i]) + {keys[i]}
  {
    assert keys[..i + 1] == keys[..i] + [keys[i]];
  }

  /** Keys that were free before the call can be deleted without a trace. */
  lemma GrantsUndo<K(!new)>(before: map<K, Id>, keys: seq<K>, token: Id)
    requires Elements(keys) !! before.Keys
    ensures before + Granted(keys, token) - Elements(keys) == before
  {
  }

  /** The listed keys that the token holds. */
  ghost function Owned<K(!new)>(held: map<K, Id>, keys: seq<K>, token: Id): set<K> {
    set k | k in held && k in keys && held[k] == token
  }

  lemma OwnedOneMore<K(!new)>(held: map<K, Id>, keys: seq<K>, i: nat, token: Id)
    requires i < |keys|
    ensures var before, after := Owned(held, keys[..i], token), Owned(held, keys[..i + 1], token);
            if keys[i] in held && held[keys[i]] == token && keys[i] !in before
            then after == before + {keys[i]} && |after| == |before| + 1 else after == before
  {
    assert keys[..i + 1] == keys[..i] + [keys[i]];
  }

  /** A release right after a grant leaves the store as it was. */
  lemma ReleaseUndoesGrant<K(!new)>(before: map<K, Id>, keys: seq<K>, token: Id)
    requires forall k :: k in keys ==> k !in before
    ensures var held := before + Granted(keys, token);
            held - Owned(held, keys, token) == before
  {
    var held := before + Granted(keys, token);
    assert Owned(held, keys, token) == Elements(keys);
  }

  lemma RepeatIsNotDistinct<K(!new)>(keys: seq<K>, i: nat)
    requires i < |keys| && keys[i] in Elements(keys[..i])
    ensures !Distinct(keys)
  {
    var j :| 0 <= j < i && keys[..i][j] == keys[i];
    assert keys[j] == keys[i];
  }

  /** The unexpired lock keys and the token each is held by. */
  class LockStore<K(==,!new)> {
    var held: map<K, Id>

    constructor ()
      ensures held == map[]
    {
      held := map[];
    }

    /** `SET key token NX` for every key in turn; the first refusal deletes what this call has set. */
    method Acquire(keys: seq<K>, token: Id) returns (success: bool)
      modifies this
      ensures success <==> Grantable(old(held), keys)
      ensures success ==> held == old(held) + Granted(keys, token)
      ensures !success ==> held == old(held)
    {
      var acquired := 0;
      while acquired < |keys|
        invariant 0 <= acquired <= |keys|
        invariant held == old(held) + Granted(keys[..acquired], token)
        invariant Elements(keys[..acquired]) !! old(held).Keys
        invariant Distinct(keys[..acquired])
      {
        var key := keys[acquired];
        if key in held {
          if key !in old(held) {
            RepeatIsNotDistinct(keys, acquired);
          }
          GrantsUndo(old(held), keys[..acquired], token);
          Rollback(keys[..acquired]);
          return false;
        }
        GrantOneMore(old(held), keys, acquired, token);
        held := held[key := token];
        acquired := acquired + 1;
      }
      assert keys[..acquired] == keys;
      return true;
    }

    method Rollback(keys: seq<K>)
      modifies this
      ensures held == old(held) - Elements(keys)
    {
      for j := 0 to |keys|
        invariant held == old(held) - Elements(keys[..j])
      {
        assert keys[..j + 1] == keys[..j] + [keys[j]];
        held := held - {keys[j]};
      }
      assert keys[..|keys|] == keys;
    }

    /** Deletes the keys this token still holds and counts them; keys of other tokens stay. */
    method Release(keys: seq<K>, token: Id) returns (released: nat)
      modifies this
      ensures held == old(held) - Owned(old(held), keys, token)
      ensures released == |Owned(old(held), keys, token)|
    {
      released := 0;
      ghost var before := held;
      assert Owned(before, keys[..0], token) == {};
      for i := 0 to |keys|
        invariant held == before - Owned(before, keys[..i], token)
        invariant released == |Owned(before, keys[..i], token)|
      {
        var key := keys[i];
        OwnedOneMore(before, keys, i, token);
        if key in held && held[key] == token {
          held := held - {key};
          released := released + 1;
        }
      }
      assert keys[..|keys|] == keys;
    }
  }
}
