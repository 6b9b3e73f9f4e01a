/**
 The queues of the two schedulers: entries numbered in the order in which they
 were accepted, each with the object that it belongs to.
 */
module WaitingLine {

  datatype Entry = Entry(id: nat, owner: nat)

  ghost predicate Increasing(ids: seq<nat>) { forall i, j :: 0 <= i < j < |ids| ==> ids[i] < ids[j] }

  ghost predicate Ascending(queue: seq<Entry>) {
    forall i, j :: 0 <= i < j < |queue| ==> queue[i].id < queue[j].id
  }

  /** The place of an owner's first entry, or the length of the queue. */
  function Find(queue: seq<Entry>, owner: nat): (i: nat)
    ensures i <= |queue|
    ensures forall j :: 0 <= j < i ==> queue[j].owner != owner
    ensures i < |queue| ==> queue[i].owner == owner
  {
    if queue == [] || queue[0].owner == owner then 0 else 1 + Find(queue[1..], owner)
  }

  function Without(queue: seq<Entry>, i: nat): seq<Entry>
    requires i < |queue|
  {
    queue[..i] + queue[i + 1..]
  }

  predicate InQueue(queue: seq<Entry>, id: nat) {
    queue != [] && (queue[0].id == id || InQueue(queue[1..], id))
  }

  lemma {:induction false} InQueueIff(queue: seq<Entry>, id: nat)
    ensures InQueue(queue, id) <==> exists i :: 0 <= i < |queue| && queue[i].id == id
  {
    if queue == [] {
    } else {
      InQueueIff(queue[1..], id);
      assert forall i :: 0 < i < |queue| ==> queue[i] == queue[1..][i - 1];
    }
  }

  lemma {:induction false} InQueueConcat(a: seq<Entry>, b: seq<Entry>, id: nat)
    ensures InQueue(a + b, id) <==> InQueue(a, id) || InQueue(b, id)
  {
    if a == [] {
      assert a + b == b;
    } else {
      InQueueConcat(a[1..], b, id);
      assert (a + b)[1..] == a[1..] + b;
    }
  }

  lemma QueueGrows(queue: seq<Entry>, e: Entry, id: nat)
    ensures InQueue(queue + [e], id) <==> InQueue(queue, id) || id == e.id
  {
    InQueueConcat(queue, [e], id);
    assert [e][1..] == [];
  }

  lemma QueueShrinks(queue: seq<Entry>, i: nat, id: nat)
    requires i < |queue| && Ascending(queue)
    ensures InQueue(Without(queue, i), id) <==> InQueue(queue, id) && id != queue[i].id
  {
    var a, e, b := queue[..i], queue[i], queue[i + 1..];
    assert queue == a + [e] + b;
    InQueueConcat(a + [e], b, id);
    QueueGrows(a, e, id);
    InQueueConcat(a, b, id);
    if id == e.id {
      InQueueIff(a, id);
      InQueueIff(b, id);
    }
  }

  lemma HeadLeaves(queue: seq<Entry>, id: nat)
    requires queue != [] && Ascending(queue)
    ensures InQueue(queue[1..], id) <==> InQueue(queue, id) && id != queue[0].id
  {
    QueueShrinks(queue, 0, id);
    assert Without(queue, 0) == queue[1..];
  }
}
