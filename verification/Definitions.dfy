/** Definition tables: the replacement graph never dangles and never cycles. */
module Definitions {
  import opened Model
  import opened Operations

  /** The definition reached by following `hops` replacements from `key`. */
  function Follow<B>(definitions: map<Key, Definition<B>>, key: Key, hops: nat): Option<Key>
    decreases hops
  {
    if hops == 0 then Some(key)
    else if key !in definitions || definitions[key].replacement.None? then None
    else Follow(definitions, definitions[key].replacement.value, hops - 1)
  }

  lemma {:induction false} EndsWithinMore<B>(definitions: map<Key, Definition<B>>, key: Key, steps: nat, more: nat)
    requires EndsWithin(definitions, key, steps) && steps <= more
    ensures EndsWithin(definitions, key, more)
    decreases steps
  {
    if definitions[key].replacement.Some? {
      EndsWithinMore(definitions, definitions[key].replacement.value, steps - 1, more - 1);
    }
  }

  lemma {:induction false} FollowEnds<B>(definitions: map<Key, Definition<B>>, key: Key, steps: nat, hops: nat)
    requires EndsWithin(definitions, key, steps)
    ensures steps < hops ==> Follow(definitions, key, hops).None?
    ensures Follow(definitions, key, hops).Some? ==>
              hops <= steps && EndsWithin(definitions, Follow(definitions, key, hops).value, steps - hops)
    decreases steps
  {
    if hops > 0 && definitions[key].replacement.Some? {
      FollowEnds(definitions, definitions[key].replacement.value, steps - 1, hops - 1);
    }
  }

  lemma {:induction false} FollowSplit<B>(definitions: map<Key, Definition<B>>, key: Key, a: nat, b: nat)
    requires Follow(definitions, key, a).Some?
    ensures Follow(definitions, key, a + b) == Follow(definitions, Follow(definitions, key, a).value, b)
    decreases a
  {
    if a > 0 {
      FollowSplit(definitions, definitions[key].replacement.value, a - 1, b);
    }
  }

  /** Going round a cycle any number of times stays on it. */
  lemma {:induction false} FollowLaps<B>(definitions: map<Key, Definition<B>>, key: Key, lap: nat, laps: nat)
    requires Follow(definitions, key, lap) == Some(key)
    ensures Follow(definitions, key, laps * lap) == Some(key)
    decreases laps
  {
    if laps > 0 {
      FollowLaps(definitions, key, lap, laps - 1);
      FollowSplit(definitions, key, lap, (laps - 1) * lap);
      assert laps * lap == lap + (laps - 1) * lap;
    }
  }

  /** No definition of a consistent table replaces itself, directly or through others,
      and every replacement chain ends at a definition that is there. */
  lemma ReplacementsAcyclic<B>(definitions: map<Key, Definition<B>>, revision: nat, key: Key)
    requires DefinitionsOk(definitions, revision) && key in definitions
    ensures forall hops: nat :: 0 < hops ==> Follow(definitions, key, hops) != Some(key)
    ensures forall hops: nat ::
      Follow(definitions, key, hops).Some? ==> Follow(definitions, key, hops).value in definitions
    ensures exists hops: nat :: Follow(definitions, key, hops).None?
  {
    assert Ends(definitions, key);
    var steps: nat :| EndsWithin(definitions, key, steps);
    forall hops: nat | 0 < hops ensures Follow(definitions, key, hops) != Some(key) {
      if Follow(definitions, key, hops) == Some(key) {
        FollowLaps(definitions, key, hops, steps + 1);
        assert steps < (steps + 1) * hops by {
          assert (steps + 1) * hops >= (steps + 1) * 1;
        }
        FollowEnds(definitions, key, steps, (steps + 1) * hops);
        assert false;
      }
    }
    forall hops: nat ensures Follow(definitions, key, hops).Some?
        ==> Follow(definitions, key, hops).value in definitions
    {
      FollowEnds(definitions, key, steps, hops);
    }
    FollowEnds(definitions, key, steps, steps + 1);
    assert Follow(definitions, key, steps + 1).None?;
  }

  // ---------- preservation ----------

  lemma {:induction false} RegisterEnds<B>(definitions: map<Key, Definition<B>>, key: Key, row: Definition<B>,
      from: Key, steps: nat)
    requires key !in definitions && EndsWithin(definitions, from, steps)
    ensures EndsWithin(definitions[key := row], from, steps)
    decreases steps
  {
    if definitions[from].replacement.Some? {
      RegisterEnds(definitions, key, row, definitions[from].replacement.value, steps - 1);
    }
  }

  lemma {:induction false} UpdateEnds<B>(definitions: map<Key, Definition<B>>, key: Key, row: Definition<B>, from: Key,
      steps: nat)
    requires key in definitions && row.replacement == definitions[key].replacement
        && EndsWithin(definitions, from, steps)
    ensures EndsWithin(definitions[key := row], from, steps)
    decreases steps
  {
    if definitions[from].replacement.Some? {
      UpdateEnds(definitions, key, row, definitions[from].replacement.value, steps - 1);
    }
  }

  /** Pointing a definition at one that has no replacement costs every chain at most one hop. */
  lemma {:induction false} DeprecateEnds<B>(definitions: map<Key, Definition<B>>, key: Key, row: Definition<B>,
      from: Key, steps: nat)
    requires EndsWithin(definitions, from, steps)
    requires row.replacement.Some? ==>
      var target := row.replacement.value;
      target != key && target in definitions && definitions[target].replacement.None?
    ensures EndsWithin(definitions[key := row], from, steps + 1)
    decreases steps
  {
    var after := definitions[key := row];
    if from == key {
      if row.replacement.Some? {
        assert EndsWithin(after, row.replacement.value, steps);
      }
    } else if definitions[from].replacement.Some? {
      DeprecateEnds(definitions, key, row, definitions[from].replacement.value, steps - 1);
    }
  }

  lemma {:induction false} RemoveEnds<B>(definitions: map<Key, Definition<B>>, key: Key, from: Key, steps: nat)
    requires !IsReplacement(definitions, key) && from != key && EndsWithin(definitions, from, steps)
    ensures EndsWithin(definitions - {key}, from, steps)
    decreases steps
  {
    if definitions[from].replacement.Some? {
      RemoveEnds(definitions, key, definitions[from].replacement.value, steps - 1);
    }
  }

  lemma EffectEnds<B>(definitions: map<Key, Definition<B>>, op: DefinitionOp<B>, revision: nat, bound: nat,
                      caption: string, origin: string, factsUse: bool, from: Key)
    requires DefinitionGuard(definitions, op, caption, origin, factsUse).None?
    requires DefinitionsOk(definitions, bound)
    requires from in DefinitionEffect(definitions, op, revision)
    ensures Ends(DefinitionEffect(definitions, op, revision), from)
  {
    var after := DefinitionEffect(definitions, op, revision);
    if from !in definitions {
      assert EndsWithin(after, from, 0);
    } else {
      assert Ends(definitions, from);
      var steps: nat :| EndsWithin(definitions, from, steps);
      match op {
        case Register(key, _) => RegisterEnds(definitions, key, after[key], from, steps);
        case Update(key, _) => UpdateEnds(definitions, key, after[key], from, steps);
        case Deprecate(key, replacement) => DeprecateEnds(definitions, key, after[key], from, steps);
        case Remove(key) => RemoveEnds(definitions, key, from, steps);
      }
    }
  }

  /** Register, update, deprecate and remove keep a definition table sound. */
  lemma DefinitionEffectOk<B>(definitions: map<Key, Definition<B>>, op: DefinitionOp<B>, revision: nat,
                              caption: string, origin: string, factsUse: bool)
    requires DefinitionGuard(definitions, op, caption, origin, factsUse).None?
    requires 0 < revision && DefinitionsOk(definitions, revision - 1)
    ensures DefinitionsOk(DefinitionEffect(definitions, op, revision), revision)
  {
    var after := DefinitionEffect(definitions, op, revision);
    forall key | key in after.Keys
      ensures key != "" && 0 < after[key].version && 0 < after[key].modified <= revision
      ensures after[key].state.Live? ==> after[key].replacement.None?
      ensures Ends(after, key)
    {
      EffectEnds(definitions, op, revision, revision - 1, caption, origin, factsUse, key);
      if key in definitions { assert 0 < definitions[key].version; }
    }
  }
}
