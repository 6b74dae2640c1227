/** The order of a user's projects: every saved membership goes to the front. */
module Memberships {
  import opened Common

  /** The user is null for a pending invitation. */
  datatype Membership = Membership(user: Option<nat>, project: nat, userOrder: int)

  /** The memberships table by primary key. */
  type Table = map<nat, Membership>

  /** A save writes the instance as it is, with whatever order it carried. */
  datatype Event = Save(id: nat, instance: Membership) | Delete(id: nat)

  /** The table refuses a second membership of one user in one project; null users are distinct. */
  ghost predicate Accepts(rows: Table, id: nat, instance: Membership) {
    instance.user.Some? ==>
      forall other | other in rows && other != id ::
        !(rows[other].user == instance.user && rows[other].project == instance.project)
  }

  /** UPDATE user_order = user_order + 1 over the user's rows. */
  function Shifted(rows: Table, user: Option<nat>): Table {
    map id | id in rows :: if rows[id].user == user then rows[id].(userOrder := rows[id].userOrder + 1) else rows[id]
  }

  /** UPDATE user_order = 0 over the rows of the user in the project. */
  function Zeroed(rows: Table, user: Option<nat>, project: nat): Table {
    map id | id in rows ::
      if rows[id].user == user && rows[id].project == project then rows[id].(userOrder := 0) else rows[id]
  }

  function AfterSave(rows: Table, id: nat, instance: Membership): Table {
    var saved := rows[id := instance];
    if instance.user.None? then saved
    else Zeroed(Shifted(saved, instance.user), instance.user, instance.project)
  }

  ghost function Step(rows: Table, event: Event): Table {
    match event
    case Save(id, instance) => if Accepts(rows, id, instance) then AfterSave(rows, id, instance) else rows
    case Delete(id) => map other | other in rows && other != id :: rows[other]
  }

  ghost function Exec(events: seq<Event>): Table {
    if events == [] then map[] else Step(Exec(events[..|events| - 1]), events[|events| - 1])
  }

  class MembershipTable {
    var rows: Table

    constructor ()
      ensures rows == map[]
    {
      rows := map[];
    }

    method PostSave(instance: Membership)
      modifies this
      ensures rows == if instance.user.None? then old(rows)
                      else Zeroed(Shifted(old(rows), instance.user), instance.user, instance.project)
      ensures rows.Keys == old(rows).Keys
      ensures forall id | id in rows && (instance.user.None? || old(rows)[id].user != instance.user) ::
                rows[id] == old(rows)[id]
      ensures forall id | id in rows && instance.user.Some? && old(rows)[id].user == instance.user ::
                rows[id].userOrder == if rows[id].project == instance.project then 0 else old(rows)[id].userOrder + 1
    {
      if instance.user.None? {
        return;
      }
      rows := Shifted(rows, instance.user);
      rows := Zeroed(rows, instance.user, instance.project);
    }

    /** Demands what the table's uniqueness constraint demands. */
    method Save(id: nat, instance: Membership)
      requires Accepts(rows, id, instance)
      modifies this
      ensures rows == Step(old(rows), Event.Save(id, instance))
    {
      rows := rows[id := instance];
      PostSave(instance);
    }

    method Delete(id: nat)
      modifies this
      ensures rows == Step(old(rows), Event.Delete(id))
    {
      rows := map other | other in rows && other != id :: rows[other];
    }
  }

  // ---------- the reference: a move-to-front list per user ----------

  /** A saved membership of the user moves to the front; one deleted, or given to someone else,
      leaves the list. */
  ghost function Fronted(rows: Table, event: Event, user: nat, ids: seq<nat>): seq<nat> {
    match event
    case Delete(id) => Without(ids, id)
    case Save(id, instance) =>
      if !Accepts(rows, id, instance) then ids
      else if instance.user == Some(user) then [id] + Without(ids, id)
      else Without(ids, id)
  }

  /** The user's memberships, most recently saved first. */
  ghost function Recency(events: seq<Event>, user: nat): seq<nat> {
    if events == [] then []
    else
      var before := events[..|events| - 1];
      Fronted(Exec(before), events[|events| - 1], user, Recency(before, user))
  }

  /** The list names exactly the user's rows, each once, in strictly increasing user order. */
  ghost predicate Ordered(rows: Table, user: nat, ids: seq<nat>) {
    && (forall id :: id in ids <==> id in rows && rows[id].user == Some(user))
    && (forall i | 0 <= i < |ids| :: ids[i] in rows && rows[ids[i]].userOrder >= 0)
    && (forall i, j | 0 <= i < j < |ids| ::
          ids[i] in rows && ids[j] in rows && rows[ids[i]].userOrder < rows[ids[j]].userOrder)
  }

  lemma WithoutFacts(ids: seq<nat>, id: nat)
    ensures forall x: nat :: x in Without(ids, id) <==> x in ids && x != id
  {
    forall x: nat ensures x in Without(ids, id) <==> x in ids && x != id {
      WithoutMembers(ids, id, x);
    }
  }

  lemma {:induction false} WithoutOrdered(rows: Table, ids: seq<nat>, id: nat)
    requires forall i | 0 <= i < |ids| :: ids[i] in rows
    requires forall i, j | 0 <= i < j < |ids| :: rows[ids[i]].userOrder < rows[ids[j]].userOrder
    ensures forall i | 0 <= i < |Without(ids, id)| :: Without(ids, id)[i] in rows
    ensures forall i, j | 0 <= i < j < |Without(ids, id)| ::
              rows[Without(ids, id)[i]].userOrder < rows[Without(ids, id)[j]].userOrder
  {
    if ids != [] {
      var n := |ids| - 1;
      WithoutOrdered(rows, ids[..n], id);
      WithoutFacts(ids[..n], id);
      var rest := Without(ids[..n], id);
      forall i | 0 <= i < |rest| ensures rows[rest[i]].userOrder < rows[ids[n]].userOrder {
        assert rest[i] in ids[..n];
        var k :| 0 <= k < n && ids[..n][k] == rest[i];
        assert ids[k] == rest[i];
      }
    }
  }

  /** Each row after an accepted save of a membership with a user. */
  lemma RowAfterSave(rows: Table, id: nat, instance: Membership, other: nat)
    requires instance.user.Some? && Accepts(rows, id, instance)
    ensures var rows' := AfterSave(rows, id, instance);
            && (other in rows' <==> other in rows || other == id)
            && rows'[id] == instance.(userOrder := 0)
            && (other in rows && other != id ==>
                rows'[other] == if rows[other].user == instance.user
                                then rows[other].(userOrder := rows[other].userOrder + 1)
                                else rows[other])
  {
  }

  lemma DropKeeps(rows: Table, rows': Table, user: nat, ids: seq<nat>, id: nat)
    requires Ordered(rows, user, ids)
    requires forall other :: other in rows' && rows'[other].user == Some(user) <==>
               other in rows && rows[other].user == Some(user) && other != id
    requires forall other | other in rows && other != id && rows[other].user == Some(user) ::
               rows'[other].userOrder == rows[other].userOrder
    ensures Ordered(rows', user, Without(ids, id))
  {
    WithoutFacts(ids, id);
    WithoutOrdered(rows, ids, id);
    var kept := Without(ids, id);
    forall i | 0 <= i < |kept| ensures kept[i] in ids && kept[i] != id && kept[i] in rows' {
      assert kept[i] in kept;
    }
  }

  lemma FrontMembers(rows: Table, user: nat, ids: seq<nat>, id: nat, instance: Membership, other: nat)
    requires Ordered(rows, user, ids) && instance.user == Some(user) && Accepts(rows, id, instance)
    ensures var rows' := AfterSave(rows, id, instance);
            other in [id] + Without(ids, id) <==> other in rows' && rows'[other].user == Some(user)
  {
    WithoutFacts(ids, id);
    RowAfterSave(rows, id, instance, other);
  }

  lemma FrontKeeps(rows: Table, user: nat, ids: seq<nat>, id: nat, instance: Membership)
    requires Ordered(rows, user, ids) && instance.user == Some(user) && Accepts(rows, id, instance)
    ensures Ordered(AfterSave(rows, id, instance), user, [id] + Without(ids, id))
  {
    var rows' := AfterSave(rows, id, instance);
    var kept := Without(ids, id);
    WithoutOrdered(rows, ids, id);
    forall i | 0 <= i < |kept|
      ensures kept[i] in rows' && rows'[kept[i]].userOrder == rows[kept[i]].userOrder + 1
      ensures rows[kept[i]].userOrder >= 0
    {
      WithoutFacts(ids, id);
      assert kept[i] in kept;
      var k :| 0 <= k < |ids| && ids[k] == kept[i];
      RowAfterSave(rows, id, instance, kept[i]);
    }
    forall other ensures other in [id] + kept <==> other in rows' && rows'[other].user == Some(user) {
      FrontMembers(rows, user, ids, id, instance, other);
    }
    RowAfterSave(rows, id, instance, id);
  }

  lemma StepKeeps(rows: Table, event: Event, user: nat, ids: seq<nat>)
    requires Ordered(rows, user, ids)
    ensures Ordered(Step(rows, event), user, Fronted(rows, event, user, ids))
  {
    match event {
      case Delete(id) => DropKeeps(rows, Step(rows, event), user, ids, id);
      case Save(id, instance) =>
        if Accepts(rows, id, instance) {
          if instance.user == Some(user) {
            FrontKeeps(rows, user, ids, id, instance);
          } else {
            DropKeeps(rows, Step(rows, event), user, ids, id);
          }
        }
    }
  }

  /** On every run of saves and deletes from no memberships, sorting a user's memberships by
      `user_order` gives them most recently saved first, with distinct non-negative orders. */
  lemma {:induction false} MoveToFront(events: seq<Event>, user: nat)
    ensures Ordered(Exec(events), user, Recency(events, user))
  {
    if events != [] {
      var n := |events| - 1;
      MoveToFront(events[..n], user);
      StepKeeps(Exec(events[..n]), events[n], user, Recency(events[..n], user));
    }
  }

  /** Whatever stale order the saved instance carried, the table ends the same. */
  lemma StaleOrderIgnored(rows: Table, id: nat, instance: Membership, stale: int)
    requires instance.user.Some?
    ensures AfterSave(rows, id, instance) == AfterSave(rows, id, instance.(userOrder := stale))
  {
    var a, b := AfterSave(rows, id, instance), AfterSave(rows, id, instance.(userOrder := stale));
    assert a.Keys == b.Keys;
    assert forall other | other in a :: a[other] == b[other];
  }
}
