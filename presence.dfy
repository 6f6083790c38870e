/** The presence record kept in `playerStatuses.json`: a Python dict from player name to
    the ISO-8601 time the player was first seen online. A Python dict remembers the order
    in which its keys were inserted, and that order later decides the order of the
    player embeds, so the record is a key sequence plus a map, never a bare map. */
module Presence {
  import opened Sequences

  type PlayerName = string

  /** `datetime.now().isoformat()`, kept opaque: the model never looks inside it. */
  type Timestamp = string

  datatype Statuses = Statuses(order: seq<PlayerName>, since: map<PlayerName, Timestamp>) {

    /** What every Python dict satisfies: each key once, and the order lists exactly the keys. */
    predicate Valid() {
      NoDuplicates(order) && since.Keys == Elements(order)
    }
  }

  const Empty: Statuses := Statuses([], map[])

  /** Reading the file (main.py:17-20): empty content gives an empty record, otherwise the
      record is whatever the JSON decoder produced from it (`decoded`). */
  function Load(content: string, decoded: Statuses): (s: Statuses)
    requires decoded.Valid()
    ensures s.Valid()
    ensures content == "" ==> s.order == [] && s.since == map[]
    ensures content != "" ==> s == decoded
  {
    if content == "" then Empty else decoded
  }

  /** The dict `playerStatuses`, updated in place by the script. */
  class StatusTable {
    var order: seq<PlayerName>
    var since: map<PlayerName, Timestamp>

    function Value(): Statuses
      reads this
    {
      Statuses(order, since)
    }

    predicate Valid()
      reads this
    {
      Value().Valid()
    }

    constructor (s: Statuses)
      requires s.Valid()
      ensures Valid() && Value() == s
    {
      order := s.order;
      since := s.since;
    }

    /** `playerStatuses.clear()` */
    method Clear()
      modifies this
      ensures Valid() && Value() == Empty
    {
      order := [];
      since := map[];
    }

    /** `playerStatuses[name] = t` for a key the dict does not hold yet: the key goes last. */
    method Insert(name: PlayerName, t: Timestamp)
      requires Valid() && name !in since
      modifies this
      ensures Valid()
      ensures order == old(order) + [name] && since == old(since)[name := t]
    {
      order := order + [name];
      since := since[name := t];
    }

    /** `del playerStatuses[name]`: the key leaves the order, the others keep theirs. */
    method Delete(name: PlayerName)
      requires Valid() && name in since
      modifies this
      ensures Valid()
      ensures order == RemoveValue(old(order), name) && since == old(since) - {name}
    {
      RemoveValueMembers(order, name);
      order := RemoveValue(order, name);
      since := since - {name};
    }
  }
}
