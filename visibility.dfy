/**
 * The reveal-once animation contract: the viewport-intersection callback adds
 * the id of every entry that is intersecting to the set of revealed elements,
 * and nothing ever removes an id again.
 */
module Visibility {

  /** One observer entry: the id of the observed element and whether it is
      currently intersecting the (margin-adjusted) viewport. */
  datatype Entry = Entry(id: string, isIntersecting: bool)

  /** The ids of the intersecting entries of one callback batch. */
  function IntersectingIds(entries: seq<Entry>): set<string>
  {
    if |entries| == 0 then {}
    else
      var last := entries[|entries| - 1];
      IntersectingIds(entries[..|entries| - 1]) + (if last.isIntersecting then {last.id} else {})
  }

  /** The revealed set after one callback batch. */
  function Reveal(visible: set<string>, entries: seq<Entry>): set<string>
  {
    visible + IntersectingIds(entries)
  }

  /** An id is collected exactly when some intersecting entry carries it. */
  lemma {:induction false} IntersectingIdsMembership(entries: seq<Entry>, id: string)
    ensures id in IntersectingIds(entries) <==>
            exists k :: 0 <= k < |entries| && entries[k].isIntersecting && entries[k].id == id
  {
    if |entries| > 0 {
      var init := entries[..|entries| - 1];
      IntersectingIdsMembership(init, id);
      if id in IntersectingIds(init) {
        var k :| 0 <= k < |init| && init[k].isIntersecting && init[k].id == id;
        assert entries[k] == init[k];
      }
      forall k | 0 <= k < |init| ensures entries[k] == init[k] { }
    }
  }

  /** The revealed set only grows. */
  lemma RevealGrows(visible: set<string>, entries: seq<Entry>)
    ensures visible <= Reveal(visible, entries)
  {
  }

  /** A batch in which nothing intersects leaves the set unchanged. */
  lemma {:induction false} NonIntersectingLeavesSet(visible: set<string>, entries: seq<Entry>)
    requires forall k :: 0 <= k < |entries| ==> !entries[k].isIntersecting
    ensures Reveal(visible, entries) == visible
  {
    if |entries| > 0 {
      NonIntersectingLeavesSet(visible, entries[..|entries| - 1]);
    }
  }

  /** Re-delivering the same batch changes nothing: revealing is idempotent. */
  lemma RevealIdempotent(visible: set<string>, entries: seq<Entry>)
    ensures Reveal(Reveal(visible, entries), entries) == Reveal(visible, entries)
  {
  }

  /** A batch whose intersecting ids are all already revealed changes nothing. */
  lemma {:induction false} RevealAlreadyPresent(visible: set<string>, entries: seq<Entry>)
    requires forall k :: 0 <= k < |entries| && entries[k].isIntersecting ==> entries[k].id in visible
    ensures Reveal(visible, entries) == visible
  {
    forall id | id in IntersectingIds(entries) ensures id in visible {
      IntersectingIdsMembership(entries, id);
    }
  }

  /** The observer callback as the source runs it: for each entry in turn,
      an intersecting one inserts its id into the set. */
  method CollectRevealed(prev: set<string>, entries: seq<Entry>) returns (next: set<string>)
    ensures prev <= next
    ensures forall id :: id in next <==>
      id in prev || exists k :: 0 <= k < |entries| && entries[k].isIntersecting && entries[k].id == id
    ensures next == Reveal(prev, entries)
  {
    next := prev;
    for i := 0 to |entries|
      invariant next == prev + IntersectingIds(entries[..i])
    {
      var entry := entries[i];
      assert entries[..i + 1][..i] == entries[..i];
      if entry.isIntersecting {
        next := next + {entry.id};
      }
    }
    assert entries[..|entries|] == entries;
    forall id ensures id in next <==>
      id in prev || exists k :: 0 <= k < |entries| && entries[k].isIntersecting && entries[k].id == id
    {
      IntersectingIdsMembership(entries, id);
    }
  }

  /** Over any sequence of callback batches, an id once revealed stays revealed. */
  function RevealAll(visible: set<string>, batches: seq<seq<Entry>>): set<string>
    decreases |batches|
  {
    if |batches| == 0 then visible else RevealAll(Reveal(visible, batches[0]), batches[1..])
  }

  lemma {:induction false} RevealAllGrows(visible: set<string>, batches: seq<seq<Entry>>)
    ensures visible <= RevealAll(visible, batches)
    decreases |batches|
  {
    if |batches| > 0 {
      RevealAllGrows(Reveal(visible, batches[0]), batches[1..]);
    }
  }
}
