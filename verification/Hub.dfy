/** The locked fan-out of telemetry records and control replies to the connected browsers. */
module Hub {
  import opened Options

  /** What the hub carries: a decoded telemetry packet or a control reply, as an opaque text. */
  datatype Record = Telemetry(text: string) | Reply(text: string)

  const QUEUE_MAX: nat := 256

  /** `queue.put_nowait` on a bounded queue: a full queue drops the record. */
  function Put(items: seq<Record>, record: Record): (seq<Record>, bool) {
    if |items| < QUEUE_MAX then (items + [record], true) else (items, false)
  }

  /** `list.remove`: the first occurrence goes, an absent element changes nothing. */
  function RemoveFirst<T(==)>(xs: seq<T>, x: T): (r: seq<T>)
    ensures x !in xs ==> r == xs
  {
    if xs == [] then []
    else if xs[0] == x then xs[1..]
    else [xs[0]] + RemoveFirst(xs[1..], x)
  }

  ghost predicate Distinct<T>(xs: seq<T>) {
    forall i, j :: 0 <= i < j < |xs| ==> xs[i] != xs[j]
  }

  /** Removing an element of a duplicate-free list removes exactly that element and keeps the
      order of the rest. */
  lemma {:induction false} RemoveFirstOfDistinct<T>(xs: seq<T>, x: T)
    requires Distinct(xs)
    ensures Distinct(RemoveFirst(xs, x))
    ensures forall y :: y in RemoveFirst(xs, x) <==> y in xs && y != x
  {
    if xs != [] {
      var rest := xs[1..];
      assert xs == [xs[0]] + rest;
      RemoveFirstOfDistinct(rest, x);
      assert xs[0] !in rest;
      if xs[0] != x {
        assert xs[0] !in RemoveFirst(rest, x);
      }
    }
  }

  class ClientQueue {
    var items: seq<Record>

    constructor ()
      ensures items == []
    {
      items := [];
    }

    method PutNowait(record: Record) returns (ok: bool)
      modifies this
      ensures (items, ok) == Put(old(items), record)
    {
      ok := |items| < QUEUE_MAX;
      if ok {
        items := items + [record];
      }
    }

    /** `queue.get` once it has something; `None` stands for the timeout. */
    method Get() returns (record: Option<Record>)
      modifies this
      ensures old(items) == [] ==> record == None && items == []
      ensures old(items) != [] ==> record == Some(old(items)[0]) && items == old(items)[1..]
    {
      if items == [] {
        return None;
      }
      record := Some(items[0]);
      items := items[1..];
    }
  }

  class TelemetryHub {
    var latest: Option<Record>
    var clients: seq<ClientQueue>

    ghost predicate Valid()
      reads this
    {
      Distinct(clients)
    }

    constructor ()
      ensures Valid() && latest == None && clients == []
    {
      latest, clients := None, [];
    }

    method Subscribe() returns (q: ClientQueue, initial: Option<Record>)
      requires Valid()
      modifies this`clients
      ensures Valid()
      ensures fresh(q) && q.items == [] && clients == old(clients) + [q]
      ensures initial == latest
    {
      q := new ClientQueue();
      clients := clients + [q];
      initial := latest;
    }

    method Unsubscribe(q: ClientQueue)
      requires Valid()
      modifies this`clients
      ensures clients == RemoveFirst(old(clients), q)
      ensures Valid() && q !in clients
      ensures forall c :: c in clients <==> c in old(clients) && c != q
    {
      RemoveFirstOfDistinct(clients, q);
      if q in clients {
        clients := RemoveFirst(clients, q);
      }
    }

    /** A telemetry record becomes `latest` and is offered to every subscriber. */
    method Publish(record: Record)
      requires Valid()
      modifies this`latest, clients
      ensures Valid() && latest == Some(record)
      ensures forall q :: q in clients ==> q.items == Put(old(q.items), record).0
    {
      latest := Some(record);
      FanOut(record);
    }

    /** An event is offered to every subscriber and leaves `latest` alone. */
    method PublishEvent(record: Record)
      requires Valid()
      modifies clients
      ensures Valid()
      ensures forall q :: q in clients ==> q.items == Put(old(q.items), record).0
    {
      FanOut(record);
    }

    method FanOut(record: Record)
      requires Valid()
      modifies clients
      ensures Valid()
      ensures forall q :: q in clients ==> q.items == Put(old(q.items), record).0
    {
      for i := 0 to |clients|
        invariant Valid()
        invariant forall k :: 0 <= k < i ==> clients[k].items == Put(old(clients[k].items), record).0
        invariant forall k :: i <= k < |clients| ==> clients[k].items == old(clients[k].items)
      {
        var _ := clients[i].PutNowait(record);
      }
    }
  }
}
