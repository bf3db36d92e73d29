/** Event de-duplication (`src/v1/event_policy.py`): a message is delivered only when it differs
    from the last delivered one and the cooldown since that delivery has elapsed. The message
    type is a parameter; the pipeline instantiates it with its event datatype. */
module Policy {
  import opened Types

  /** The two fields `emit` reads and writes. */
  datatype PolicyState<M> = PolicyState(lastMsg: Option<M>, lastT: real)

  /** One `emit` call: the message and the clock reading it takes. */
  datatype Call<M> = Call(msg: M, at: real)

  /** The decision of one `emit` call and the state it leaves: a repeat of the last message is
      dropped whatever the time, a new message inside the cooldown is dropped, anything else is
      delivered and becomes the new state. A dropped call changes nothing. */
  function Decide<M(==)>(s: PolicyState<M>, cooldown: real, c: Call<M>): (r: (bool, PolicyState<M>))
    ensures s.lastMsg == Some(c.msg) ==> !r.0
    ensures c.at - s.lastT < cooldown ==> !r.0
    ensures r.0 <==> s.lastMsg != Some(c.msg) && c.at - s.lastT >= cooldown
    ensures r.0 ==> r.1 == PolicyState(Some(c.msg), c.at)
    ensures !r.0 ==> r.1 == s
  {
    if s.lastMsg == Some(c.msg) then (false, s)
    else if c.at - s.lastT < cooldown then (false, s)
    else (true, PolicyState(Some(c.msg), c.at))
  }

  /** A sequence of `emit` calls from state `s`: the final state and the delivered calls, in order. */
  function Run<M(==)>(s: PolicyState<M>, cooldown: real, calls: seq<Call<M>>): (r: (PolicyState<M>, seq<Call<M>>))
    ensures |r.1| <= |calls|
    decreases |calls|
  {
    if calls == [] then (s, [])
    else
      var (mid, delivered) := Run(s, cooldown, calls[..|calls| - 1]);
      var c := calls[|calls| - 1];
      var (ok, next) := Decide(mid, cooldown, c);
      (next, if ok then delivered + [c] else delivered)
  }

  /** Running `a` then `b` is running `a + b`. */
  lemma {:induction false} RunAppend<M>(s: PolicyState<M>, cooldown: real, a: seq<Call<M>>, b: seq<Call<M>>)
    ensures Run(s, cooldown, a + b).0 == Run(Run(s, cooldown, a).0, cooldown, b).0
    ensures Run(s, cooldown, a + b).1 == Run(s, cooldown, a).1 + Run(Run(s, cooldown, a).0, cooldown, b).1
    decreases |b|
  {
    if b == [] {
      assert a + b == a;
    } else {
      var b' := b[..|b| - 1];
      assert (a + b)[..|a + b| - 1] == a + b';
      RunAppend(s, cooldown, a, b');
    }
  }

  /** What a run of calls guarantees about its deliveries, with no assumption on the clock:
      the state afterwards records the last delivery, every delivery differs from the one before
      it (or from the initial last message) and comes at least a cooldown after it. */
  ghost predicate Spaced<M>(s: PolicyState<M>, cooldown: real, delivered: seq<Call<M>>, final: PolicyState<M>) {
    (delivered == [] ==> final == s) &&
    (delivered != [] ==> final == PolicyState(Some(delivered[|delivered| - 1].msg), delivered[|delivered| - 1].at)) &&
    (delivered != [] ==> s.lastMsg != Some(delivered[0].msg) && delivered[0].at - s.lastT >= cooldown) &&
    (forall i :: 0 < i < |delivered| ==>
       delivered[i - 1].msg != delivered[i].msg && delivered[i].at - delivered[i - 1].at >= cooldown)
  }

  /** Consecutive deliveries never repeat a message and are at least `cooldown` apart; every
      delivered call is one of the calls made. */
  lemma {:induction false} RunSpaced<M>(s: PolicyState<M>, cooldown: real, calls: seq<Call<M>>)
    ensures Spaced(s, cooldown, Run(s, cooldown, calls).1, Run(s, cooldown, calls).0)
    ensures forall c :: c in Run(s, cooldown, calls).1 ==> c in calls
    decreases |calls|
  {
    if calls != [] {
      var init := calls[..|calls| - 1];
      RunSpaced(s, cooldown, init);
      assert forall c :: c in init ==> c in calls;
    }
  }

  /** Only a change of message can be delivered: a run that repeats one message delivers it at
      most once, and not at all if it was already the last message. */
  lemma {:induction false} RepeatsDeliverOnce<M>(s: PolicyState<M>, cooldown: real, calls: seq<Call<M>>, m: M)
    requires forall i :: 0 <= i < |calls| ==> calls[i].msg == m
    ensures |Run(s, cooldown, calls).1| <= 1
    ensures s.lastMsg == Some(m) ==> Run(s, cooldown, calls).1 == []
    decreases |calls|
  {
    if calls != [] {
      var init := calls[..|calls| - 1];
      RepeatsDeliverOnce(s, cooldown, init, m);
      RunSpaced(s, cooldown, init);
      var (mid, delivered) := Run(s, cooldown, init);
      if delivered != [] {
        var last := delivered[|delivered| - 1];
        assert last in init;
        assert mid.lastMsg == Some(m);
      }
    }
  }

  /** `EventPolicy`: the object holding the two fields. */
  class EventPolicy<M(==)> {
    const cooldown: real
    var lastMsg: Option<M>
    var lastT: real

    function State(): PolicyState<M>
      reads this
    {
      PolicyState(lastMsg, lastT)
    }

    /** A fresh policy has delivered nothing: no last message, last time `0.0`. */
    constructor (cooldown: real)
      ensures this.cooldown == cooldown
      ensures lastMsg == None && lastT == 0.0
    {
      this.cooldown := cooldown;
      lastMsg := None;
      lastT := 0.0;
    }

    /** `emit(msg)` at clock reading `now`; `delivered` tells whether the message is printed. */
    method Emit(msg: M, now: real) returns (delivered: bool)
      modifies this
      ensures (delivered, State()) == Decide(old(State()), cooldown, Call(msg, now))
      ensures delivered ==> lastMsg == Some(msg) && lastT == now
      ensures !delivered ==> lastMsg == old(lastMsg) && lastT == old(lastT)
    {
      if Some(msg) == lastMsg {
        return false;
      }
      if now - lastT < cooldown {
        return false;
      }
      delivered := true;
      lastMsg := Some(msg);
      lastT := now;
    }
  }
}
