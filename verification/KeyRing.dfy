/** The ring of grant-signing keys (`pkg/server/keyring`). */
module KeyRing {
  import opened GoStrings

  datatype KeyState = Next | Active | Retired | Revoked

  datatype Key = Key(id: string, state: KeyState, private: string, public: string)

  type Keys = map<string, Key>

  // ----- the operations on values -----

  /** `Get`: a key that is there and not revoked. */
  function Found(keys: Keys, id: string): Option<Key> {
    if id in keys && !keys[id].state.Revoked? then Some(keys[id]) else None
  }

  predicate IsActive(keys: Keys, id: string) {
    id in keys && keys[id].state.Active?
  }

  function Retire(k: Key): Key {
    if k.state.Active? then k.(state := Retired) else k
  }

  predicate CanRotateTo(keys: Keys, id: string) {
    id in keys && keys[id].state.Next?
  }

  /** `Rotate`: every active key retires, then the next key becomes active. */
  function Rotated(keys: Keys, id: string): Keys {
    if CanRotateTo(keys, id) then
      map i | i in keys :: if i == id then keys[i].(state := Active) else Retire(keys[i])
    else keys
  }

  class Ring {
    var keys: Keys

    constructor ()
      ensures keys == map[]
    {
      keys := map[];
    }

    method Add(key: Key)
      modifies this
      ensures keys == old(keys)[key.id := key]
    {
      keys := keys[key.id := key];
    }

    /** `Active`: the map is walked in any order, so any active key may be the one found. */
    method FindActive() returns (key: Option<Key>)
      ensures key == None <==> forall id :: !IsActive(keys, id)
      ensures key.Some? ==> exists id :: IsActive(keys, id) && keys[id] == key.value
    {
      var todo := keys.Keys;
      while todo != {}
        invariant todo <= keys.Keys
        invariant forall id | id in keys && id !in todo :: !keys[id].state.Active?
      {
        var id :| id in todo;
        if keys[id].state.Active? {
          assert IsActive(keys, id);
          return Some(keys[id]);
        }
        todo := todo - {id};
      }
      return None;
    }

    method Get(id: string) returns (key: Option<Key>)
      ensures key == Found(keys, id)
      ensures key.Some? <==> id in keys && keys[id].state != Revoked
      ensures key.Some? ==> key.value == keys[id]
    {
      if id !in keys || keys[id].state == Revoked { return None; }
      return Some(keys[id]);
    }

    method Rotate(nextID: string) returns (ok: bool)
      modifies this
      ensures ok <==> CanRotateTo(old(keys), nextID)
      ensures keys == Rotated(old(keys), nextID)
    {
      if nextID !in keys || keys[nextID].state != Next { return false; }
      var next := keys[nextID];
      ghost var before := keys;
      var todo := keys.Keys;
      while todo != {}
        invariant todo <= before.Keys == keys.Keys
        invariant forall id | id in before :: keys[id] == if id in todo then before[id] else Retire(before[id])
      {
        var id :| id in todo;
        var key := keys[id];
        if key.state == Active {
          keys := keys[id := key.(state := Retired)];
        }
        todo := todo - {id};
      }
      keys := keys[nextID := next.(state := Active)];
      return true;
    }
  }

  // ----- runs -----

  /** What the Trust Root does to its ring: it adds a key under a new ID, and it rotates. */
  datatype Event = AddKey(key: Key) | Rotate(id: string)

  ghost predicate Step(before: Keys, e: Event, after: Keys) {
    match e
    case AddKey(key) => key.state.Next? && key.id !in before && after == before[key.id := key]
    case Rotate(id) => after == Rotated(before, id)
  }

  ghost predicate Run(states: seq<Keys>, events: seq<Event>) {
    && |states| == |events| + 1
    && forall i | 0 <= i < |events| :: Step(states[i], events[i], states[i + 1])
  }

  ghost predicate SoleActive(keys: Keys, id: string) {
    IsActive(keys, id) && forall other | IsActive(keys, other) :: other == id
  }

  /** The active key is the one last rotated to. */
  ghost function ActiveAfter(states: seq<Keys>, events: seq<Event>, first: string): string
    requires |states| == |events| + 1
    decreases |events|
  {
    if events == [] then first
    else
      var n := |events| - 1;
      if events[n].Rotate? && CanRotateTo(states[n], events[n].id) then events[n].id
      else ActiveAfter(states[..n + 1], events[..n], first)
  }

  lemma StepSoleActive(before: Keys, e: Event, after: Keys, id: string)
    requires Step(before, e, after) && SoleActive(before, id)
    ensures SoleActive(after, if e.Rotate? && CanRotateTo(before, e.id) then e.id else id)
  {
    forall other | IsActive(after, other) && other != id
      ensures e.Rotate? && CanRotateTo(before, e.id) && other == e.id
    {
      assert !IsActive(before, other);
    }
  }

  /** In every run from a ring with one active key, every state has exactly one: the one last rotated to. Separate
      steps of concurrent rotations may interleave in any way. */
  lemma {:induction false} ExactlyOneActive(states: seq<Keys>, events: seq<Event>, first: string)
    requires Run(states, events) && SoleActive(states[0], first)
    ensures SoleActive(states[|events|], ActiveAfter(states, events, first))
    decreases |events|
  {
    if events != [] {
      var n := |events| - 1;
      ExactlyOneActive(states[..n + 1], events[..n], first);
      StepSoleActive(states[n], events[n], states[n + 1], ActiveAfter(states[..n + 1], events[..n], first));
    }
  }

  function Rank(s: KeyState): nat {
    match s
    case Next => 0
    case Active => 1
    case Retired => 2
    case Revoked => 3
  }

  /** The key is what it was, further along next, active, retired; a key that is not revoked is never revoked. */
  ghost predicate Later(before: Keys, after: Keys, id: string) {
    && id in before && id in after
    && after[id] == before[id].(state := after[id].state)
    && Rank(before[id].state) <= Rank(after[id].state)
    && (after[id].state.Revoked? ==> before[id].state.Revoked?)
  }

  lemma StepLater(before: Keys, e: Event, after: Keys, id: string)
    requires Step(before, e, after) && id in before
    ensures Later(before, after, id)
  {
  }

  /** Every key keeps its ID and key pair for ever, only moves from next to active to retired, and once retired never
      signs again; so a key that was ever active stays retrievable by its ID. */
  lemma {:induction false} KeysStayRetrievable(states: seq<Keys>, events: seq<Event>, i: nat, j: nat, id: string)
    requires Run(states, events) && i <= j <= |events| && id in states[i]
    ensures Later(states[i], states[j], id)
    ensures IsActive(states[i], id) ==>
              Found(states[j], id).Some? && Found(states[j], id).value.public == states[i][id].public
    decreases j
  {
    if i < j {
      KeysStayRetrievable(states, events, i, j - 1, id);
      StepLater(states[j - 1], events[j - 1], states[j], id);
    }
  }
}
