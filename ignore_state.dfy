/**
 * IgnoreState: the grammar-reader state that skips a whole subtree. It counts open
 * elements, starting from one for the element that entered it, and hands control back to
 * its parent state (popState) when that element ends, or at the end of the document.
 */
module IgnoreStates {

  datatype Event = StartTag | EndTag | Text

  /** One event from depth `depth`: the new depth and how many times the state is popped. */
  function Step(depth: int, e: Event): (r: (int, nat))
    ensures e == StartTag ==> r == (depth + 1, 0)
    ensures e == EndTag ==> r.0 == depth - 1 && (r.1 == 1 <==> depth - 1 == 0) && r.1 <= 1
    ensures e == Text ==> r == (depth, 0)
  {
    match e
    case StartTag => (depth + 1, 0)
    case EndTag => (depth - 1, if depth - 1 == 0 then 1 else 0)
    case Text => (depth, 0)
  }

  /** The depth and the number of pops after a sequence of events. */
  function Replay(depth: int, events: seq<Event>): (int, nat)
  {
    if events == [] then (depth, 0)
    else
      var (d, pops) := Replay(depth, events[..|events| - 1]);
      var (d2, more) := Step(d, events[|events| - 1]);
      (d2, pops + more)
  }

  /** Start tags minus end tags. */
  function Opened(events: seq<Event>): int
  {
    if events == [] then 0
    else Opened(events[..|events| - 1])
         + (match events[|events| - 1] case StartTag => 1 case EndTag => -1 case Text => 0)
  }

  /** Well nested content: no prefix closes more elements than it opened, and all are closed. */
  ghost predicate Balanced(events: seq<Event>)
  {
    (forall k :: 0 <= k <= |events| ==> Opened(events[..k]) >= 0) && Opened(events) == 0
  }

  /** Inside the skipped element the depth is one more than the open children, and nothing pops. */
  lemma {:induction false} ReplayInside(events: seq<Event>)
    requires forall k :: 0 <= k <= |events| ==> Opened(events[..k]) >= 0
    ensures Replay(1, events) == (1 + Opened(events), 0)
  {
    if events != [] {
      var front := events[..|events| - 1];
      forall k | 0 <= k <= |front| ensures Opened(front[..k]) >= 0 {
        assert front[..k] == events[..k];
      }
      ReplayInside(front);
      assert events[..|events|] == events;
    }
  }

  /**
   * The state pops exactly once over the skipped subtree, at the end tag that balances
   * the start tag that entered it.
   */
  lemma SkipsSubtree(content: seq<Event>)
    requires Balanced(content)
    ensures Replay(1, content) == (1, 0)
    ensures Replay(1, content + [EndTag]) == (0, 1)
  {
    ReplayInside(content);
    assert (content + [EndTag])[..|content|] == content;
  }

  class IgnoreState {
    var depth: int
    /** how many times reader.popState was called */
    var pops: nat

    constructor()
      ensures depth == 1 && pops == 0
    {
      depth := 1;
      pops := 0;
    }

    method StartElement()
      modifies this
      ensures (depth, pops - old(pops)) == Step(old(depth), StartTag) && pops >= old(pops)
    {
      depth := depth + 1;
    }

    method EndElement()
      modifies this
      ensures pops >= old(pops) && (depth, pops - old(pops)) == Step(old(depth), EndTag)
    {
      depth := depth - 1;
      if depth == 0 {
        pops := pops + 1;
      }
    }

    /** endDocument pops whatever the depth. */
    method EndDocument()
      modifies this
      ensures depth == old(depth) && pops == old(pops) + 1
    {
      pops := pops + 1;
    }

    /** characters are ignored. */
    method Characters(chars: string)
      modifies this
      ensures depth == old(depth) && pops == old(pops)
    {
    }
  }
}
