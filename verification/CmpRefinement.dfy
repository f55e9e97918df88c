/** The center's methods are steps of the keep-alive machine, so what holds of its runs holds of the center. */
module CmpRefinement {
  import opened CText
  import opened CmpPacket
  import opened CmpRegistry
  import opened CmpKeepAlive
  import opened CmpControlCenter

  // The table, the list and the counter are those of s, and what the center closed is not open.
  ghost predicate Mirrors(c: ControlCenter, s: State)
    reads c
  {
    && c.Valid() && c.Conserved()
    && c.rows == s.rows && c.vEnquireLink == s.pending && c.msnSequence == s.sequence
    && forall fd | fd in c.closed :: fd !in s.open
  }

  // The center stands where this run of the machine has led.
  ghost predicate Follows(c: ControlCenter, run: seq<Step>)
    reads c
  {
    IsRun(INIT, run) && Mirrors(c, Run(INIT, run))
  }

  lemma {:induction false} RunMore(s: State, a: seq<Step>, b: seq<Step>)
    requires IsRun(s, a) && IsRun(Run(s, a), b)
    ensures IsRun(s, a + b) && Run(s, a + b) == Run(Run(s, a), b)
    decreases a
  {
    if a == [] {
      assert a + b == b;
    } else {
      assert (a + b)[1..] == a[1..] + b;
      RunMore(Next(s, a[0]), a[1..], b);
    }
  }

  lemma OneStep(s: State, step: Step)
    requires Enabled(s, step)
    ensures IsRun(s, [step]) && Run(s, [step]) == Next(s, step)
  {
    assert [step][1..] == [];
    assert IsRun(Next(s, step), []);
  }

  method Start() returns (c: ControlCenter)
    ensures fresh(c) && Follows(c, [])
  {
    c := new ControlCenter();
  }

  // A round of the center is a tick, and asks whom the machine asks.
  method Round(c: ControlCenter, ghost run: seq<Step>)
    requires Follows(c, run)
    modifies c
    ensures Follows(c, run + [Tick])
    ensures c.sent == old(c.sent) + EnquiryPackets(Enquiries(c.vEnquireLink, old(c.msnSequence)))
  {
    ghost var s := Run(INIT, run);
    OneStep(s, Tick);
    RunMore(INIT, run, [Tick]);
    c.EnquireRound();
    forall fd | fd in c.closed ensures fd !in Next(s, Tick).open {
      assert fd in old(c.closed) || fd in s.pending;
    }
  }

  // The steps of the machine that one received packet amounts to; asked tells whether the center asked a
  // controller something for it.
  function StepsOf(fd: int, p: Bytes, asked: bool): seq<Step>
    requires |p| >= HEADER_SIZE
  {
    if IsAckPacket(GetCommand(p)) then if GetCommand(p) == ENQUIRE_LINK_RESPONSE then [Receive(fd)] else []
    else (if BindIn(fd, p) != [] then [Register(fd, FieldsIn(p)["id"])] else []) + (if asked then [Ask] else [])
  }

  // A response in flight arrives, or a request of a socket that was once connected.
  method Packet(c: ControlCenter, fd: int, p: Bytes, world: World, ghost run: seq<Step>)
    returns (ghost steps: seq<Step>)
    requires |p| >= HEADER_SIZE && Fits(world) && Follows(c, run)
    requires GetCommand(p) == ENQUIRE_LINK_RESPONSE ==> Enabled(Run(INIT, run), Receive(fd))
    requires BindIn(fd, p) != [] ==> fd in Run(INIT, run).used
    modifies c
    ensures Follows(c, run + steps) && (steps == StepsOf(fd, p, false) || steps == StepsOf(fd, p, true))
  {
    hide Replies, FieldsIn, Response, Run, IsRun, After, Given, DueAfter, IsAckPacket, GetCommand, BindIn, StepsOf;
    hide Fits;
    ghost var s := Run(INIT, run);
    ghost var history := c.history;
    c.OnCMP(fd, p, world);
    if IsAckPacket(GetCommand(p)) {
      steps := Acknowledged(s, fd, p);
    } else {
      steps := BoundAndAsked(s, fd, p, c.msnSequence);
      TableAfter(history, fd, p);
    }
    RunMore(INIT, run, steps);
  }

  lemma TableAfter(history: seq<Event>, fd: int, p: Bytes)
    requires |p| >= HEADER_SIZE
    ensures var rows := After(history);
            After(history + BindIn(fd, p)) == if BindIn(fd, p) == [] then rows else Apply(rows, BindIn(fd, p)[0])
  {
    if BindIn(fd, p) == [] {
      assert history + [] == history;
    } else {
      assert BindIn(fd, p) == [BindIn(fd, p)[0]];
      AfterMore(history, BindIn(fd, p)[0]);
    }
  }

  lemma Acknowledged(s: State, fd: int, p: Bytes) returns (steps: seq<Step>)
    requires |p| >= HEADER_SIZE && IsAckPacket(GetCommand(p))
    requires GetCommand(p) == ENQUIRE_LINK_RESPONSE ==> Enabled(s, Receive(fd))
    ensures IsRun(s, steps) && steps == StepsOf(fd, p, false)
    ensures var t := Run(s, steps);
            && t.rows == s.rows && t.sequence == s.sequence && t.open == s.open
            && t.pending == if GetCommand(p) == ENQUIRE_LINK_RESPONSE then WithoutFirst(s.pending, fd) else s.pending
  {
    steps := StepsOf(fd, p, false);
    if GetCommand(p) == ENQUIRE_LINK_RESPONSE {
      OneStep(s, Receive(fd));
    }
  }

  lemma BoundAndAsked(s: State, fd: int, p: Bytes, now: int) returns (steps: seq<Step>)
    requires |p| >= HEADER_SIZE && !IsAckPacket(GetCommand(p)) && Counts(s.sequence, now)
    requires BindIn(fd, p) != [] ==> fd in s.used
    ensures IsRun(s, steps) && (steps == StepsOf(fd, p, false) || steps == StepsOf(fd, p, true))
    ensures Run(s, steps) == s.(sequence := now,
      rows := if BindIn(fd, p) == [] then s.rows else Apply(s.rows, BindIn(fd, p)[0]))
  {
    hide FieldsIn;
    steps := StepsOf(fd, p, now != s.sequence);
    var t := s;
    if BindIn(fd, p) != [] {
      OneStep(s, steps[0]);
      t := Next(s, steps[0]);
      assert steps[..1] == [steps[0]];
    }
    if now != s.sequence {
      OneStep(t, Ask);
      if BindIn(fd, p) != [] {
        RunMore(s, steps[..1], [Ask]);
      }
    }
  }

  // What the network does meanwhile leaves the center where it is.
  lemma Meanwhile(c: ControlCenter, run: seq<Step>, step: Step)
    requires Follows(c, run) && Enabled(Run(INIT, run), step) && Inv(Run(INIT, run))
    requires step.Connect? || step.Answer? || step.Disconnect?
    requires step.Connect? ==> step.fd !in c.closed
    ensures Follows(c, run + [step])
  {
    OneStep(Run(INIT, run), step);
    RunMore(INIT, run, [step]);
  }

  // So the center's own list counts what is in flight, whatever it has been through.
  lemma ListCountsInFlight(c: ControlCenter, run: seq<Step>, fd: int)
    requires Follows(c, run) && fd in Run(INIT, run).open
    ensures var s := Run(INIT, run);
            fd in s.toPeer && fd in s.toCenter && Count(c.vEnquireLink, fd) == |s.toPeer[fd]| + |s.toCenter[fd]|
  {
    CountingInvariant(run, fd);
  }
}
