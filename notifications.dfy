// The front end's notification store: a list that notifications are pushed
// onto and spliced out of, by id.

module Notifications {

  datatype Kind = Info | Success | Warning | Error

  datatype Notification = Notification(id: string, kind: Kind, title: string, message: string, hideAfter: int)

  /** `findIndex` by id: the first position holding the id, or -1. */
  function IndexOf(ns: seq<Notification>, id: string): (i: int)
    ensures -1 <= i < |ns|
    ensures i == -1 <==> forall k :: 0 <= k < |ns| ==> ns[k].id != id
    ensures i >= 0 ==> ns[i].id == id && forall k :: 0 <= k < i ==> ns[k].id != id
  {
    if ns == [] then -1
    else if ns[0].id == id then 0
    else
      var i := IndexOf(ns[1..], id);
      if i == -1 then -1 else i + 1
  }

  /** The list after splicing out the first entry with the id, if any. */
  function Removed(ns: seq<Notification>, id: string): seq<Notification> {
    var i := IndexOf(ns, id);
    if i == -1 then ns else ns[..i] + ns[i + 1..]
  }

  /** No two entries share an id. */
  predicate UniqueIds(ns: seq<Notification>) {
    forall j, k :: 0 <= j < k < |ns| ==> ns[j].id != ns[k].id
  }

  /** Removing an absent id changes nothing; removing a present one drops
      exactly its first entry and keeps every other entry in order. */
  lemma {:induction false} RemovedSpec(ns: seq<Notification>, id: string)
    ensures (forall k :: 0 <= k < |ns| ==> ns[k].id != id) ==> Removed(ns, id) == ns
    ensures (exists k :: 0 <= k < |ns| && ns[k].id == id) ==>
              |Removed(ns, id)| == |ns| - 1
              && multiset(Removed(ns, id)) + multiset{ns[IndexOf(ns, id)]} == multiset(ns)
              && forall k :: 0 <= k < |Removed(ns, id)| ==>
                   Removed(ns, id)[k] == if k < IndexOf(ns, id) then ns[k] else ns[k + 1]
  {
    var i := IndexOf(ns, id);
    if i == -1 {
      assert Removed(ns, id) == ns;
    } else {
      var r := ns[..i] + ns[i + 1..];
      assert Removed(ns, id) == r;
      assert ns[i].id == id;
      SpliceMultiset(ns, i);
      SpliceIndex(ns, i);
    }
  }

  /** Splicing out one entry takes exactly that entry from the multiset. */
  lemma SpliceMultiset(ns: seq<Notification>, i: nat)
    requires i < |ns|
    ensures multiset(ns[..i] + ns[i + 1..]) + multiset{ns[i]} == multiset(ns)
  {
    assert ns == ns[..i] + [ns[i]] + ns[i + 1..];
  }

  /** Splicing out one entry shifts the later entries down by one. */
  lemma SpliceIndex(ns: seq<Notification>, i: nat)
    requires i < |ns|
    ensures |ns[..i] + ns[i + 1..]| == |ns| - 1
    ensures forall k :: 0 <= k < |ns| - 1 ==> (ns[..i] + ns[i + 1..])[k] == if k < i then ns[k] else ns[k + 1]
  {
  }

  /** Closing a notification just added with a fresh id gives back the list
      as it was. */
  lemma CloseUndoesAdd(ns: seq<Notification>, n: Notification)
    requires forall k :: 0 <= k < |ns| ==> ns[k].id != n.id
    ensures Removed(ns + [n], n.id) == ns
  {
    var all := ns + [n];
    assert forall k :: 0 <= k < |ns| ==> all[k].id != n.id;
    assert all[|ns|].id == n.id;
    assert IndexOf(all, n.id) == |ns|;
    assert all[..|ns|] == ns;
  }

  /** With distinct ids, a second removal of the same id (the timer firing
      after a manual close) changes nothing, and ids stay distinct. */
  lemma RemoveTwice(ns: seq<Notification>, id: string)
    requires UniqueIds(ns)
    ensures UniqueIds(Removed(ns, id))
    ensures Removed(Removed(ns, id), id) == Removed(ns, id)
  {
    RemovedSpec(ns, id);
    var r := Removed(ns, id);
    var i := IndexOf(ns, id);
    if i >= 0 {
      forall k | 0 <= k < |r| ensures r[k].id != id {
        if k < i { assert r[k] == ns[k]; } else { assert r[k] == ns[k + 1]; }
      }
      RemovedSpec(r, id);
    }
  }

  /** The store's list. */
  class Store {
    var notifications: seq<Notification>

    constructor ()
      ensures notifications == []
    {
      notifications := [];
    }

    /** `addNotification`: the notification with its new id is pushed at the
        end; a removal is scheduled unless `hideAfter` is 0. The id comes from
        a random source and is an argument here; the scheduled removal is a
        later call of Close with the same id. */
    method Add(kind: Kind, title: string, message: string, hideAfter: int, id: string)
      returns (scheduled: bool)
      modifies this
      ensures notifications == old(notifications) + [Notification(id, kind, title, message, hideAfter)]
      ensures scheduled <==> hideAfter != 0
    {
      notifications := notifications + [Notification(id, kind, title, message, hideAfter)];
      scheduled := hideAfter != 0;
    }

    /** `closeNotification`, and the body of the scheduled removal: splice out
        the first entry with the id, if there is one. */
    method Close(id: string)
      modifies this
      ensures notifications == Removed(old(notifications), id)
    {
      var index := IndexOf(notifications, id);
      if index != -1 {
        notifications := notifications[..index] + notifications[index + 1..];
      }
    }
  }
}
