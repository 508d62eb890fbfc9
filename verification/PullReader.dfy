/** The polling goroutine of the pull-based reader (a2asrv/eventqueue/pull_event_queue_impl.go). */
module PullReader {
  import opened Json
  import opened Tasks

  /** A queued message; `None` stands for a nil message or one without an event. */
  type Queued = Option<Event>

  /** The events of the non-empty messages, in order. */
  function Present(messages: seq<Queued>): seq<Event> {
    if messages == [] then []
    else (match messages[0] case Some(e) => [e] case None => []) + Present(messages[1..])
  }

  predicate HasFinal(events: seq<Event>) {
    exists i :: 0 <= i < |events| && events[i].Final()
  }

  /** What readers are to get: everything up to and including the first final event. */
  ghost predicate CutAtFinal(events: seq<Event>, cut: seq<Event>) {
    && cut <= events
    && (HasFinal(cut) <==> HasFinal(events))
    && (forall i :: 0 <= i < |cut| - 1 ==> !cut[i].Final())
    && (!HasFinal(events) ==> cut == events)
    && (HasFinal(events) ==> cut != [] && cut[|cut| - 1].Final())
  }

  function UpToFinal(events: seq<Event>): seq<Event> {
    if events == [] then []
    else if events[0].Final() then [events[0]]
    else [events[0]] + UpToFinal(events[1..])
  }

  lemma HasFinalStep(e: Event, rest: seq<Event>)
    ensures HasFinal([e] + rest) <==> e.Final() || HasFinal(rest)
  {
    assert ([e] + rest)[0] == e;
    if HasFinal(rest) {
      var i :| 0 <= i < |rest| && rest[i].Final();
      assert ([e] + rest)[i + 1].Final();
    }
  }

  lemma CutStep(e: Event, events: seq<Event>, cut: seq<Event>)
    requires !e.Final() && CutAtFinal(events, cut)
    ensures CutAtFinal([e] + events, [e] + cut)
  {
    HasFinalStep(e, events);
    HasFinalStep(e, cut);
    hide HasFinal;
    var longer := [e] + cut;
    assert forall i :: 1 <= i < |longer| ==> longer[i] == cut[i - 1];
  }

  lemma {:induction false} UpToFinalCuts(events: seq<Event>)
    ensures CutAtFinal(events, UpToFinal(events))
  {
    if events != [] {
      assert events == [events[0]] + events[1..];
      if events[0].Final() {
        HasFinalStep(events[0], []);
        HasFinalStep(events[0], events[1..]);
      } else {
        UpToFinalCuts(events[1..]);
        CutStep(events[0], events[1..], UpToFinal(events[1..]));
      }
    }
  }

  /** The cut is the only one with these properties. */
  lemma CutIsUnique(events: seq<Event>, a: seq<Event>, b: seq<Event>)
    requires CutAtFinal(events, a) && CutAtFinal(events, b)
    ensures a == b
  {
  }

  lemma {:induction false} PresentConcat(a: seq<Queued>, b: seq<Queued>)
    ensures Present(a + b) == Present(a) + Present(b)
  {
    if a == [] {
      assert a + b == b;
    } else {
      assert (a + b)[1..] == a[1..] + b;
      PresentConcat(a[1..], b);
    }
  }

  lemma {:induction false} UpToFinalConcat(a: seq<Event>, b: seq<Event>)
    ensures UpToFinal(a + b) == if HasFinal(a) then UpToFinal(a) else a + UpToFinal(b)
  {
    if a == [] {
      assert a + b == b;
    } else {
      assert (a + b)[1..] == a[1..] + b;
      assert forall i :: 0 <= i < |a[1..]| ==> a[1..][i] == a[i + 1];
      UpToFinalConcat(a[1..], b);
      if !a[0].Final() && HasFinal(a) {
        var i :| 0 <= i < |a| && a[i].Final();
        assert a[1..][i - 1].Final();
      }
    }
  }

  /** Once a prefix holds a final event, the rest does not matter. */
  lemma UpToFinalPrefix(a: seq<Event>, b: seq<Event>)
    ensures UpToFinal(a) <= UpToFinal(a + b)
    ensures HasFinal(a) ==> UpToFinal(a) == UpToFinal(a + b)
    ensures !HasFinal(a) ==> UpToFinal(a) == a
  {
    UpToFinalConcat(a, b);
    UpToFinalConcat(a, []);
    assert a + [] == a;
  }

  lemma HasFinalConcat(a: seq<Event>, b: seq<Event>)
    ensures HasFinal(a + b) <==> HasFinal(a) || HasFinal(b)
  {
    if HasFinal(a) {
      var i :| 0 <= i < |a| && a[i].Final();
      assert (a + b)[i].Final();
    }
    if HasFinal(b) {
      var i :| 0 <= i < |b| && b[i].Final();
      assert (a + b)[|a| + i].Final();
    }
  }

  /** Sending one more event when none of the earlier ones was final. */
  lemma SendStep(front: seq<Event>, e: Event, rest: seq<Event>)
    requires !HasFinal(front)
    ensures HasFinal(front + [e]) <==> e.Final()
    ensures front + [e] <= UpToFinal(front + ([e] + rest))
    ensures e.Final() ==> front + [e] == UpToFinal(front + ([e] + rest)) && HasFinal(front + ([e] + rest))
  {
    UpToFinalConcat(front, [e] + rest);
    HasFinalConcat(front, [e]);
    HasFinalConcat(front, [e] + rest);
    HasFinalConcat([e], rest);
    assert e.Final() ==> [e][0].Final();
    assert ([e] + rest)[0] == e;
  }

  lemma PresentSplit(messages: seq<Queued>, n: nat)
    requires n < |messages|
    ensures Present(messages[..n + 1]) == Present(messages[..n]) + Present([messages[n]])
    ensures Present(messages) == Present(messages[..n]) + (Present([messages[n]]) + Present(messages[n + 1..]))
  {
    hide Present;
    SplitAt(messages, n);
    PresentConcat(messages[..n], [messages[n]] + messages[n + 1..]);
    PresentConcat([messages[n]], messages[n + 1..]);
    PresentConcat(messages[..n], [messages[n]]);
  }

  lemma SplitAt<T>(s: seq<T>, n: nat)
    requires n < |s|
    ensures s[..n + 1] == s[..n] + [s[n]]
    ensures s == s[..n] + ([s[n]] + s[n + 1..])
  {
  }

  lemma SingleMessage(m: Queued)
    ensures Present([m]) == match m case Some(e) => [e] case None => []
  {
    assert [m][1..] == [];
  }

  datatype PullOutcome = PullFailed | Pulled(messages: seq<Queued>, cursor: nat)

  class Reader {
    const queue: seq<Queued>            // everything that is ever put into the remote queue
    const answers: nat -> Option<nat>   // whether the n-th pull fails, or how far it reaches
    var cursor: nat
    var canceled: bool
    var sent: seq<Event>       // received from the unbuffered events channel, in order
    var closes: nat            // how often the events channel was closed

    constructor (queue: seq<Queued>, answers: nat -> Option<nat>)
      ensures this.queue == queue && this.answers == answers && Fresh()
    {
      this.queue, this.answers := queue, answers;
      cursor, canceled, sent, closes := 0, false, [], 0;
    }

    predicate Fresh()
      reads this
    {
      cursor == 0 && sent == [] && closes == 0
    }

    /** `Close` cancels the context; it may happen between any two steps of the goroutine. */
    method MaybeCancel()
      modifies this`canceled
      ensures old(canceled) ==> canceled
    {
      var now: bool := *;
      canceled := canceled || now;
    }

    /** The cursor that the n-th pull leads to from `c`. */
    function Reached(c: nat, n: nat): (next: nat)
      requires c <= |queue|
      ensures c <= next <= |queue|
    {
      match answers(n)
      case None => c
      case Some(k) => if k < c then c else if k > |queue| then |queue| else k
    }

    /** The cursor after the first n pulls. */
    function CursorAfter(n: nat): (c: nat)
      ensures c <= |queue|
    {
      if n == 0 then 0 else Reached(CursorAfter(n - 1), n - 1)
    }

    /** The puller: it fails, or returns some of the messages after the cursor. */
    method Pull(n: nat) returns (outcome: PullOutcome)
      requires cursor <= |queue|
      ensures outcome.PullFailed? <==> answers(n).None?
      ensures outcome.Pulled? ==>
                outcome.cursor == Reached(cursor, n) && outcome.messages == queue[cursor..outcome.cursor]
    {
      if answers(n).None? {
        return PullFailed;
      }
      return Pulled(queue[cursor..Reached(cursor, n)], Reached(cursor, n));
    }

    /** Sends the non-empty messages one by one; stops after a final event or on cancellation. */
    method DispatchMessages(messages: seq<Queued>) returns (stop: bool, ghost part: seq<Event>)
      modifies this`sent, this`canceled
      ensures sent == old(sent) + part && part <= UpToFinal(Present(messages))
      ensures !stop ==> part == Present(messages) && !HasFinal(part)
      ensures stop && !canceled ==> part == UpToFinal(Present(messages)) && HasFinal(Present(messages))
    {
      part := [];
      assert Present(messages[..0]) == [] && !HasFinal(part);
      hide Present, HasFinal, UpToFinal;
      for n := 0 to |messages|
        invariant sent == old(sent) + part && part == Present(messages[..n]) && !HasFinal(part)
      {
        ghost var rest := Present(messages[n + 1..]);
        PresentSplit(messages, n);
        SingleMessage(messages[n]);
        UpToFinalPrefix(part, Present([messages[n]]) + rest);
        if messages[n].None? {
          continue;
        }
        MaybeCancel();
        var done: bool := *;
        if canceled && done {
          return true, part;
        }
        SendStep(part, messages[n].value, rest);
        sent, part := sent + [messages[n].value], part + [messages[n].value];
        if messages[n].value.Final() {
          return true, part;
        }
      }
      assert messages[..|messages|] == messages;
      UpToFinalPrefix(part, []);
      return false, part;
    }

    /** The polling loop, cut off after any number of rounds: `done` tells whether the goroutine has
        returned, and then its deferred function has closed the channel. */
    method Poll(rounds: nat) returns (done: bool)
      requires Fresh()
      modifies this
      ensures sent <= UpToFinal(Present(queue))
      ensures closes == if done then 1 else 0
      ensures done && !canceled ==> HasFinal(Present(queue)) && sent == UpToFinal(Present(queue))
      ensures !done ==> sent == Present(queue[..CursorAfter(rounds)]) && !HasFinal(sent)
    {
      for n := 0 to rounds
        invariant cursor == CursorAfter(n) && closes == 0
        invariant sent == Present(queue[..cursor]) && !HasFinal(sent)
      {
        var stop := PollOnce(n);
        if stop {
          closes := closes + 1;
          return true;
        }
      }
      PolledPrefix(cursor);
      return false;
    }

    lemma PolledPrefix(c: nat)
      requires c <= |queue| && !HasFinal(Present(queue[..c]))
      ensures Present(queue[..c]) <= UpToFinal(Present(queue))
    {
      assert queue == queue[..c] + queue[c..];
      PresentConcat(queue[..c], queue[c..]);
      UpToFinalPrefix(Present(queue[..c]), Present(queue[c..]));
    }

    lemma PulledSplit(c: nat, d: nat)
      requires c <= d <= |queue|
      ensures Present(queue[..d]) == Present(queue[..c]) + Present(queue[c..d])
      ensures Present(queue) == Present(queue[..c]) + (Present(queue[c..d]) + Present(queue[d..]))
    {
      hide Present;
      assert queue == queue[..c] + (queue[c..d] + queue[d..]) && queue[..d] == queue[..c] + queue[c..d];
      PresentConcat(queue[..c], queue[c..d] + queue[d..]);
      PresentConcat(queue[c..d], queue[d..]);
      PresentConcat(queue[..c], queue[c..d]);
    }

    /** One pull, the dispatch of its messages and the wait for the ticker. */
    method PollOnce(n: nat) returns (stop: bool)
      requires cursor <= |queue| && sent == Present(queue[..cursor]) && !HasFinal(sent)
      modifies this`cursor, this`sent, this`canceled
      ensures cursor <= |queue| && sent <= UpToFinal(Present(queue))
      ensures !stop ==> cursor == Reached(old(cursor), n) && sent == Present(queue[..cursor]) && !HasFinal(sent)
      ensures stop && !canceled ==> HasFinal(Present(queue)) && sent == UpToFinal(Present(queue))
    {
      hide Present, HasFinal, UpToFinal;
      PolledPrefix(cursor);
      MaybeCancel();
      var outcome := Pull(n);
      if outcome.PullFailed? {
        if canceled {
          return true;
        }
      } else {
        ghost var c := cursor;
        cursor := outcome.cursor;
        ghost var before, middle, back := sent, Present(queue[c..cursor]), Present(queue[cursor..]);
        PulledSplit(c, cursor);
        UpToFinalConcat(before, middle + back);
        UpToFinalPrefix(middle, back);
        HasFinalConcat(before, middle + back);
        HasFinalConcat(middle, back);
        HasFinalConcat(before, middle);
        ghost var part;
        stop, part := DispatchMessages(outcome.messages);
        if stop {
          return true;
        }
      }
      MaybeCancel();
      var done: bool := *;
      if canceled && done {
        return true;
      }
      return false;
    }
  }
}
