/** Reconciling the presence record with the player list of the current status
    (main.py:16-36). */
module Reconciliation {
  import opened Wrappers
  import opened Sequences
  import opened Presence

  /** The names of `names` that are not in `known`, each once, in order of first appearance:
      the keys the first loop of the script appends to the dict. */
  function Newcomers(known: set<PlayerName>, names: seq<PlayerName>): (r: seq<PlayerName>)
    ensures NoDuplicates(r)
    ensures forall n :: n in r <==> n in names && n !in known
    decreases |names|
  {
    if names == [] then []
    else
      var before := Newcomers(known, names[..|names| - 1]);
      var name := names[|names| - 1];
      assert names == names[..|names| - 1] + [name];
      if name in known || name in before then before
      else NoDuplicatesAppend(before, name); before + [name]
  }

  /** The record after the first loop (main.py:28-32) has seen `names`: every name it did
      not hold is appended with time `now`; the names it held keep their time and place. */
  function Registered(s: Statuses, names: seq<PlayerName>, now: Timestamp): (r: Statuses)
    requires s.Valid()
    ensures r.Valid()
    ensures r.since.Keys == s.since.Keys + Elements(names)
    ensures forall n :: n in r.since ==> r.since[n] == if n in s.since then s.since[n] else now
    decreases |names|
  {
    if names == [] then s
    else
      var init, name := names[..|names| - 1], names[|names| - 1];
      var before := Registered(s, init, now);
      assert names == init + [name];
      assert Elements(names) == Elements(init) + {name};
      if name in before.since then before
      else
        NoDuplicatesAppend(before.order, name);
        Statuses(before.order + [name], before.since[name := now])
  }

  /** One iteration of the first loop. */
  lemma RegisterStep(s: Statuses, names: seq<PlayerName>, i: nat, now: Timestamp)
    requires s.Valid() && i < |names|
    ensures var before := Registered(s, names[..i], now);
      Registered(s, names[..i + 1], now) ==
        if names[i] in before.since then before
        else Statuses(before.order + [names[i]], before.since[names[i] := now])
  {
    assert names[..i + 1][..i] == names[..i];
  }

  /** The first loop appends exactly the newcomers, after the keys the record held. */
  lemma {:induction false} RegisteredOrder(s: Statuses, names: seq<PlayerName>, now: Timestamp)
    requires s.Valid()
    ensures Registered(s, names, now).order == s.order + Newcomers(s.since.Keys, names)
    decreases |names|
  {
    if names == [] {
      assert s.order + [] == s.order;
    } else {
      var init, name := names[..|names| - 1], names[|names| - 1];
      RegisteredOrder(s, init, now);
      var before := Registered(s, init, now);
      if name in before.since {
        assert name in s.since || name in Newcomers(s.since.Keys, init);
      } else {
        assert Newcomers(s.since.Keys, names) == Newcomers(s.since.Keys, init) + [name];
      }
    }
  }

  /** The record after the second loop (main.py:34-36): every key not in `present` deleted,
      the others in their old order with their old times. */
  function Pruned(s: Statuses, present: set<PlayerName>): (r: Statuses)
    requires s.Valid()
    ensures r.Valid()
    ensures r.since.Keys == s.since.Keys * present
    ensures forall n :: n in r.since ==> r.since[n] == s.since[n]
  {
    FilterMembers(s.order, present);
    FilterNoDuplicates(s.order, present);
    Statuses(Filter(s.order, present), map n | n in s.since && n in present :: s.since[n])
  }

  /** The whole reconciliation. `playerList` is `None` when the status has no `list`
      entry; an absent or empty list clears the record (main.py:22-23). */
  function Reconciled(prior: Statuses, playerList: Option<seq<PlayerName>>, now: Timestamp): (r: Statuses)
    requires prior.Valid()
    ensures r.Valid()
    ensures (playerList == None || playerList == Some([])) ==> r.order == [] && r.since == map[]
  {
    match playerList
    case None => Empty
    case Some(names) =>
      if names == [] then Empty
      else Pruned(Registered(prior, names, now), Elements(names))
  }

  /** The script's reconciliation, in place: clear on an absent or empty list, otherwise
      the two loops below. */
  method Reconcile(table: StatusTable, playerList: Option<seq<PlayerName>>, now: Timestamp)
    requires table.Valid()
    modifies table
    ensures table.Valid()
    ensures table.Value() == Reconciled(old(table.Value()), playerList, now)
  {
    if playerList == None || playerList == Some([]) {
      table.Clear();
    } else {
      var currentPlayers := RegisterPlayers(table, playerList.value, now);
      RemoveAbsent(table, currentPlayers);
    }
  }

  /** The first loop (main.py:28-32): collect the names and add the unknown ones. */
  method RegisterPlayers(table: StatusTable, names: seq<PlayerName>, now: Timestamp)
    returns (currentPlayers: set<PlayerName>)
    requires table.Valid()
    modifies table
    ensures table.Valid()
    ensures table.Value() == Registered(old(table.Value()), names, now)
    ensures currentPlayers == Elements(names)
  {
    ghost var prior := table.Value();
    currentPlayers := {};
    for i := 0 to |names|
      invariant table.Valid()
      invariant table.Value() == Registered(prior, names[..i], now)
      invariant currentPlayers == Elements(names[..i])
    {
      var name := names[i];
      RegisterStep(prior, names, i, now);
      ElementsStep(names, i);
      currentPlayers := currentPlayers + {name};
      if name !in table.since {
        table.Insert(name, now);
      }
    }
    assert names[..|names|] == names;
  }

  /** The second loop (main.py:34-36): over a snapshot of the keys, delete each key that is
      not a current player. */
  method RemoveAbsent(table: StatusTable, currentPlayers: set<PlayerName>)
    requires table.Valid()
    modifies table
    ensures table.Valid()
    ensures table.Value() == Pruned(old(table.Value()), currentPlayers)
  {
    ghost var registered := table.Value();
    var keys := table.order;
    for i := 0 to |keys|
      invariant PruneInvariant(registered, currentPlayers, i, table.Value())
    {
      var playerName := keys[i];
      PruneStep(registered, currentPlayers, i, table.Value());
      if playerName !in currentPlayers {
        table.Delete(playerName);
      }
    }
    assert keys[..|keys|] == keys;
    PrunedByOrder(registered, currentPlayers, table.Value());
  }

  /** What the second loop keeps after looking at the first `i` keys of `s`: the keys seen
      so far are filtered, the rest are untouched, and no time has changed. */
  ghost predicate PruneInvariant(s: Statuses, present: set<PlayerName>, i: nat, t: Statuses) {
    && i <= |s.order|
    && t.Valid()
    && t.order == Filter(s.order[..i], present) + s.order[i..]
    && forall n :: n in t.since ==> n in s.since && t.since[n] == s.since[n]
  }

  /** One iteration of the second loop. */
  lemma PruneStep(s: Statuses, present: set<PlayerName>, i: nat, t: Statuses)
    requires s.Valid() && i < |s.order| && PruneInvariant(s, present, i, t)
    ensures s.order[i] in t.since
    ensures s.order[i] in present ==> PruneInvariant(s, present, i + 1, t)
    ensures s.order[i] !in present ==>
      PruneInvariant(s, present, i + 1, Statuses(RemoveValue(t.order, s.order[i]), t.since - {s.order[i]}))
  {
    var name := s.order[i];
    PruneOrderStep(s.order, i, present, t.order);
    if name !in present {
      RemoveValueMembers(t.order, name);
    }
  }

  /** One iteration of the second loop, on the key order alone. */
  lemma PruneOrderStep(keys: seq<PlayerName>, i: nat, present: set<PlayerName>, order: seq<PlayerName>)
    requires i < |keys|
    requires order == Filter(keys[..i], present) + keys[i..]
    ensures keys[i] in order
    ensures keys[i] in present ==> order == Filter(keys[..i + 1], present) + keys[i + 1..]
    ensures keys[i] !in present ==> RemoveValue(order, keys[i]) == Filter(keys[..i + 1], present) + keys[i + 1..]
  {
    var kept := Filter(keys[..i], present);
    FilterStep(keys, i, present);
    assert keys[i..] == [keys[i]] + keys[i + 1..];
    assert order == kept + [keys[i]] + keys[i + 1..];
    if keys[i] !in present {
      FilterMembers(keys[..i], present);
      RemoveAfterPrefix(kept, keys[i], keys[i + 1..]);
    }
  }

  /** A valid record whose order is the filtered order, and whose times are the old ones,
      is the pruned record. */
  lemma PrunedByOrder(s: Statuses, present: set<PlayerName>, t: Statuses)
    requires s.Valid() && t.Valid()
    requires t.order == Filter(s.order, present)
    requires forall n :: n in t.since ==> n in s.since && t.since[n] == s.since[n]
    ensures t == Pruned(s, present)
  {
    FilterMembers(s.order, present);
    assert t.since.Keys == Pruned(s, present).since.Keys;
  }

  /** With a non-empty list, the record afterwards holds exactly the listed names: every
      earlier name that is not listed is gone (main.py:26-36). */
  lemma ReconciledKeys(prior: Statuses, names: seq<PlayerName>, now: Timestamp)
    requires prior.Valid() && names != []
    ensures var r := Reconciled(prior, Some(names), now);
      forall n :: (n in r.since <==> n in names) && (n in r.order <==> n in names)
  {
    var r := Reconciled(prior, Some(names), now);
    forall n ensures (n in r.since <==> n in names) && (n in r.order <==> n in names) {
      assert n in Elements(r.order) <==> n in r.order;
      assert n in Elements(names) <==> n in names;
    }
  }

  /** A listed name keeps the time it already had, and a listed name the record did not
      hold gets the current time (main.py:31-32). */
  lemma ReconciledTimes(prior: Statuses, names: seq<PlayerName>, now: Timestamp)
    requires prior.Valid() && names != []
    ensures var r := Reconciled(prior, Some(names), now);
      && (forall n :: n in names && n in prior.since ==> n in r.since && r.since[n] == prior.since[n])
      && (forall n :: n in names && n !in prior.since ==> n in r.since && r.since[n] == now)
  {
  }

  /** The order afterwards: the surviving names in their old order, then the new names in
      the order of the list, each once (main.py:28-36). */
  lemma ReconciledOrder(prior: Statuses, names: seq<PlayerName>, now: Timestamp)
    requires prior.Valid() && names != []
    ensures Reconciled(prior, Some(names), now).order
         == Filter(prior.order, Elements(names)) + Newcomers(prior.since.Keys, names)
  {
    var joined := Newcomers(prior.since.Keys, names);
    RegisteredOrder(prior, names, now);
    FilterAppend(prior.order, joined, Elements(names));
    FilterKeepsAll(joined, Elements(names));
  }

  /** Reconciling again with the same list changes nothing, whatever the current time is
      on the second run. */
  lemma ReconciledIdempotent(prior: Statuses, playerList: Option<seq<PlayerName>>, now: Timestamp, later: Timestamp)
    requires prior.Valid()
    ensures var once := Reconciled(prior, playerList, now);
      Reconciled(once, playerList, later) == once
  {
    if playerList.Some? && playerList.value != [] {
      var names := playerList.value;
      var once := Reconciled(prior, playerList, now);
      ReconciledKeys(prior, names, now);
      RegisteredKnown(once, names, later);
      PrunedKeepsAll(once, Elements(names));
    }
  }

  /** The first loop changes nothing when every listed name is already held. */
  lemma RegisteredKnown(s: Statuses, names: seq<PlayerName>, now: Timestamp)
    requires s.Valid()
    requires forall n :: n in names ==> n in s.since
    ensures Registered(s, names, now) == s
  {
    var joined := Newcomers(s.since.Keys, names);
    RegisteredOrder(s, names, now);
    assert s.order + joined == s.order;
    assert Registered(s, names, now).since == s.since;
  }

  /** The second loop changes nothing when every key is present. */
  lemma PrunedKeepsAll(s: Statuses, present: set<PlayerName>)
    requires s.Valid()
    requires s.since.Keys <= present
    ensures Pruned(s, present) == s
  {
    forall n | n in s.order ensures n in present {
      assert n in Elements(s.order);
    }
    FilterKeepsAll(s.order, present);
    assert Pruned(s, present).since == s.since;
  }

  /** Two players join an empty record. */
  lemma TwoPlayersJoin(t0: Timestamp)
    ensures Reconciled(Empty, Some(["Alice", "Bob"]), t0)
         == Statuses(["Alice", "Bob"], map["Alice" := t0, "Bob" := t0])
  {
    var names: seq<PlayerName> := ["Alice", "Bob"];
    assert names[..0] == [] && names[..1] == ["Alice"] && names[..2] == names;
    RegisterStep(Empty, names, 0, t0);
    RegisterStep(Empty, names, 1, t0);
    var joined := Statuses(["Alice", "Bob"], map["Alice" := t0, "Bob" := t0]);
    assert Registered(Empty, names, t0) == joined;
    PrunedKeepsAll(joined, Elements(names));
  }

  /** A player leaves; the one who stays keeps the time first seen. */
  lemma OnePlayerLeaves(t0: Timestamp, t1: Timestamp)
    ensures Reconciled(Statuses(["Alice", "Carol"], map["Alice" := t0, "Carol" := t0]), Some(["Alice"]), t1)
         == Statuses(["Alice"], map["Alice" := t0])
  {
    var prior := Statuses(["Alice", "Carol"], map["Alice" := t0, "Carol" := t0]);
    var names: seq<PlayerName> := ["Alice"];
    assert prior.Valid();
    ReconciledOrder(prior, names, t1);
    assert Filter(prior.order[..1], Elements(names)) == ["Alice"];
    assert Filter(prior.order, Elements(names)) == ["Alice"];
    ReconciledKeys(prior, names, t1);
    ReconciledTimes(prior, names, t1);
  }
}
