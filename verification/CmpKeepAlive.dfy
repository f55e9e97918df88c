/** The enquire-link keep-alive as a protocol between the center and its controllers, over all runs. */
module CmpKeepAlive {
  import opened CText
  import opened CmpRegistry

  // getSequence
  function NextSequence(n: int): int {
    if 0x7FFF_FFFF <= n + 1 then 1 else n + 1
  }

  function Count(fds: seq<int>, fd: int): nat {
    if fds == [] then 0 else (if fds[0] == fd then 1 else 0) + Count(fds[1..], fd)
  }

  // ackPacket: one entry of the socket that answered is taken off the list.
  function WithoutFirst(fds: seq<int>, fd: int): seq<int> {
    if fds == [] then [] else if fds[0] == fd then fds[1..] else [fds[0]] + WithoutFirst(fds[1..], fd)
  }

  // The rows that stay when the sockets still on the list are dropped.
  function WithoutFds(rows: Rows, fds: seq<int>): Rows
    decreases fds
  {
    if fds == [] then rows else WithoutFds(WithoutFd(rows, fds[0]), fds[1..])
  }

  datatype Enquiry = Enquiry(fd: int, sequence: int)

  // One enquiry to each fd, numbered from behind n.
  function Enquiries(fds: seq<int>, n: int): seq<Enquiry> {
    if fds == [] then [] else [Enquiry(fds[0], NextSequence(n))] + Enquiries(fds[1..], NextSequence(n))
  }

  // The numbers of one round are consecutive, and behind 0x7FFF_FFFE they start over at 1.
  lemma {:induction false} Numbered(fds: seq<int>, n: int, i: nat)
    requires 0 <= n <= 0x7FFF_FFFE && i < |fds| <= 0x7FFF_FFFE
    ensures |Enquiries(fds, n)| == |fds| && Enquiries(fds, n)[i].fd == fds[i]
    ensures Enquiries(fds, n)[i].sequence == if n + i + 1 <= 0x7FFF_FFFE then n + i + 1 else n + i + 1 - 0x7FFF_FFFE
  {
    if i > 0 {
      Numbered(fds[1..], NextSequence(n), i - 1);
    } else if |fds| > 1 {
      Numbered(fds[1..], NextSequence(n), 0);
    }
  }

  // So no two enquiries of a round have the same number.
  lemma RoundNumbersDiffer(fds: seq<int>, n: int, i: nat, j: nat)
    requires 0 <= n <= 0x7FFF_FFFE && i < j < |fds| <= 0x7FFF_FFFE
    ensures |Enquiries(fds, n)| == |fds| && Enquiries(fds, n)[i].sequence != Enquiries(fds, n)[j].sequence
  {
    Numbered(fds, n, i);
    Numbered(fds, n, j);
  }

  function LastSequence(fds: seq<int>, n: int): int {
    if fds == [] then n else LastSequence(fds[1..], NextSequence(n))
  }

  // The sequence numbers in flight on each open socket, oldest first.
  type Channels = map<int, seq<int>>

  datatype State = State(rows: Rows, pending: seq<int>, sequence: int,
                         toPeer: Channels, toCenter: Channels, open: set<int>, used: set<int>)

  const INIT := State([], [], 0, map[], map[], {}, {})

  datatype Step =
    | Connect(fd: int)
    | Register(fd: int, id: Text)
    | Unregister(fd: int)
    | Answer(fd: int)
    | Receive(fd: int)
    | Disconnect(fd: int)
    | Ask
    | Tick

  // A closed socket number is not used again, but a request that was queued before its socket was closed may be
  // handled after it. Peers answer what they were asked. Ask stands for the center's other requests.
  predicate Enabled(s: State, step: Step) {
    match step
    case Connect(fd) => fd !in s.used
    case Register(fd, _) => fd in s.used
    case Unregister(fd) => fd in s.used
    case Answer(fd) => fd in s.open && fd in s.toPeer && fd in s.toCenter && s.toPeer[fd] != []
    case Receive(fd) => fd in s.open && fd in s.toCenter && s.toCenter[fd] != []
    case Disconnect(fd) => fd in s.open
    case Ask => true
    case Tick => true
  }

  // Sent to a closed socket, an enquiry is lost.
  function Sent(toPeer: Channels, enquiries: seq<Enquiry>): Channels {
    if enquiries == [] then toPeer
    else
      var e := enquiries[0];
      Sent(if e.fd in toPeer then toPeer[e.fd := toPeer[e.fd] + [e.sequence]] else toPeer, enquiries[1..])
  }

  function Elements(fds: seq<int>): set<int> {
    set fd | fd in fds
  }

  function TickFrom(s: State): State {
    var rows := WithoutFds(s.rows, s.pending);
    var asked, dropped := BoundFds(rows), Elements(s.pending);
    State(rows, asked, LastSequence(asked, s.sequence),
          Sent(s.toPeer - dropped, Enquiries(asked, s.sequence)), s.toCenter - dropped, s.open - dropped, s.used)
  }

  function Next(s: State, step: Step): State
    requires Enabled(s, step)
  {
    match step
    case Connect(fd) =>
      s.(open := s.open + {fd}, used := s.used + {fd}, toPeer := s.toPeer[fd := []], toCenter := s.toCenter[fd := []])
    case Register(fd, id) => s.(rows := Apply(s.rows, Bind(id, fd)))
    case Unregister(fd) => s.(rows := Apply(s.rows, Unbind(fd)))
    case Answer(fd) =>
      s.(toPeer := s.toPeer[fd := s.toPeer[fd][1..]], toCenter := s.toCenter[fd := s.toCenter[fd] + [s.toPeer[fd][0]]])
    case Receive(fd) =>
      s.(toCenter := s.toCenter[fd := s.toCenter[fd][1..]], pending := WithoutFirst(s.pending, fd))
    case Disconnect(fd) => s.(open := s.open - {fd}, toPeer := s.toPeer - {fd}, toCenter := s.toCenter - {fd})
    case Ask => s.(sequence := NextSequence(s.sequence))
    case Tick => TickFrom(s)
  }

  predicate IsRun(s: State, steps: seq<Step>)
    decreases steps
  {
    steps == [] || (Enabled(s, steps[0]) && IsRun(Next(s, steps[0]), steps[1..]))
  }

  function Run(s: State, steps: seq<Step>): State
    requires IsRun(s, steps)
    decreases steps
  {
    if steps == [] then s else Run(Next(s, steps[0]), steps[1..])
  }

  // Enquiries and responses in flight.
  function InFlight(s: State, fd: int): nat {
    (if fd in s.toPeer then |s.toPeer[fd]| else 0) + (if fd in s.toCenter then |s.toCenter[fd]| else 0)
  }

  ghost predicate Inv(s: State) {
    && s.toPeer.Keys == s.open && s.toCenter.Keys == s.open && s.open <= s.used
    && (forall fd | fd in s.pending :: fd in s.used)
    && (forall r | r in s.rows :: r.fd in s.used)
    && (forall fd | fd in s.open :: Count(s.pending, fd) == InFlight(s, fd))
  }

  lemma {:induction false} CountIn(fds: seq<int>, fd: int)
    ensures fd in fds <==> Count(fds, fd) > 0
  {
    if fds != [] {
      CountIn(fds[1..], fd);
    }
  }

  lemma {:induction false} CountWithoutFirst(fds: seq<int>, fd: int, other: int)
    ensures Count(WithoutFirst(fds, fd), other) == Count(fds, other) - (if other == fd && fd in fds then 1 else 0)
    ensures forall f | f in WithoutFirst(fds, fd) :: f in fds
  {
    if fds != [] && fds[0] != fd {
      CountWithoutFirst(fds[1..], fd, other);
    }
  }

  lemma {:induction false} InWithoutFds(rows: Rows, fds: seq<int>, r: Row)
    ensures r in WithoutFds(rows, fds) <==> r in rows && r.fd !in fds
    decreases fds
  {
    if fds != [] {
      InWithoutFd(rows, fds[0], r);
      InWithoutFds(WithoutFd(rows, fds[0]), fds[1..], r);
    }
  }

  // Each open socket gets one enquiry for every time it is asked.
  lemma {:induction false} SentCounts(toPeer: Channels, fds: seq<int>, n: int, fd: int)
    ensures Sent(toPeer, Enquiries(fds, n)).Keys == toPeer.Keys
    ensures fd in toPeer ==> |Sent(toPeer, Enquiries(fds, n))[fd]| == |toPeer[fd]| + Count(fds, fd)
  {
    if fds != [] {
      var e := Enquiry(fds[0], NextSequence(n));
      var next := if e.fd in toPeer then toPeer[e.fd := toPeer[e.fd] + [e.sequence]] else toPeer;
      assert Enquiries(fds, n)[0] == e && Enquiries(fds, n)[1..] == Enquiries(fds[1..], e.sequence);
      SentCounts(next, fds[1..], e.sequence, fd);
    }
  }

  // A tick drops exactly the open sockets with something in flight, and asks the others once for each row.
  lemma TickRule(s: State, fd: int)
    requires Inv(s)
    ensures var t := TickFrom(s);
            && (fd in t.open <==> fd in s.open && InFlight(s, fd) == 0)
            && (fd in t.open ==> InFlight(t, fd) == Count(BoundFds(t.rows), fd) == Count(t.pending, fd))
            && (forall r: Row | r.fd == fd :: r in t.rows <==> r in s.rows && fd !in s.pending)
  {
    var t := TickFrom(s);
    CountIn(s.pending, fd);
    SentCounts(s.toPeer - Elements(s.pending), t.pending, s.sequence, fd);
    forall r: Row | r.fd == fd ensures r in t.rows <==> r in s.rows && fd !in s.pending {
      InWithoutFds(s.rows, s.pending, r);
    }
  }

  lemma TickKeepsInv(s: State)
    requires Inv(s)
    ensures Inv(TickFrom(s))
  {
    var t := TickFrom(s);
    SentCounts(s.toPeer - Elements(s.pending), t.pending, s.sequence, 0);
    forall fd | fd in t.open ensures Count(t.pending, fd) == InFlight(t, fd) {
      TickRule(s, fd);
    }
    forall r | r in t.rows ensures r.fd in t.used {
      InWithoutFds(s.rows, s.pending, r);
    }
    forall fd | fd in t.pending ensures fd in t.used {
      InBoundFds(t.rows, fd);
    }
  }

  lemma StepKeepsInv(s: State, step: Step)
    requires Inv(s) && Enabled(s, step)
    ensures Inv(Next(s, step))
  {
    var t := Next(s, step);
    match step {
      case Connect(fd) => CountIn(s.pending, fd);
      case Register(fd, id) =>
        forall r | r in t.rows ensures r.fd in t.used {
          InWithoutId(s.rows, id, r);
        }
      case Unregister(fd) =>
        forall r | r in t.rows ensures r.fd in t.used {
          InDeactivated(s.rows, fd, r);
        }
      case Receive(fd) =>
        CountIn(s.pending, fd);
        forall f | f in t.open ensures Count(t.pending, f) == InFlight(t, f) {
          CountWithoutFirst(s.pending, fd, f);
        }
        CountWithoutFirst(s.pending, fd, fd);
      case Tick => TickKeepsInv(s);
      case _ =>
    }
  }

  // In every reachable state the list of an open socket counts what it has in flight.
  lemma {:induction false} InvOverRuns(s: State, steps: seq<Step>)
    requires Inv(s) && IsRun(s, steps)
    ensures Inv(Run(s, steps))
    decreases steps
  {
    if steps != [] {
      StepKeepsInv(s, steps[0]);
      InvOverRuns(Next(s, steps[0]), steps[1..]);
    }
  }

  // From the empty table on.
  lemma CountingInvariant(steps: seq<Step>, fd: int)
    requires IsRun(INIT, steps)
    ensures var s := Run(INIT, steps);
            Inv(s) && (fd in s.open ==> Count(s.pending, fd) == |s.toPeer[fd]| + |s.toCenter[fd]|)
  {
    InvOverRuns(INIT, steps);
  }

  // A socket once closed stays closed.
  lemma {:induction false} ClosedStays(s: State, steps: seq<Step>, fd: int)
    requires Inv(s) && IsRun(s, steps) && fd in s.used && fd !in s.open
    ensures fd !in Run(s, steps).open
    decreases steps
  {
    if steps != [] {
      StepKeepsInv(s, steps[0]);
      ClosedStays(Next(s, steps[0]), steps[1..], fd);
    }
  }

  function Received(steps: seq<Step>, fd: int): nat {
    if steps == [] then 0 else (if steps[0] == Receive(fd) then 1 else 0) + Received(steps[1..], fd)
  }

  // Between ticks, what is in flight on a socket only shrinks by the responses received from it.
  lemma {:induction false} BetweenTicks(s: State, steps: seq<Step>, fd: int)
    requires Inv(s) && IsRun(s, steps) && Tick !in steps && fd in Run(s, steps).open
    ensures InFlight(s, fd) == InFlight(Run(s, steps), fd) + Received(steps, fd)
    decreases steps
  {
    if steps != [] {
      var t := Next(s, steps[0]);
      StepKeepsInv(s, steps[0]);
      BetweenTicks(t, steps[1..], fd);
      if steps[0] == Disconnect(fd) {
        ClosedStays(t, steps[1..], fd);
      }
      if steps[0] == Receive(fd) {
        assert |s.toCenter[fd][1..]| == |s.toCenter[fd]| - 1;
      }
    }
  }

  // From one tick to the next, a socket is dropped when fewer responses came from it than it has live rows;
  // with its last unanswered enquiry all of its rows go, otherwise all stay.
  lemma DropRule(s: State, steps: seq<Step>, fd: int)
    requires Inv(s) && Tick !in steps && IsRun(TickFrom(s), steps) && fd in Run(TickFrom(s), steps).open
    ensures var asked := TickFrom(s);
            var before := Run(asked, steps);
            var after := TickFrom(before);
            && (fd !in after.open <==> Received(steps, fd) < Count(BoundFds(asked.rows), fd))
            && (forall r: Row | r.fd == fd :: r in after.rows <==> r in before.rows && fd in after.open)
  {
    var asked := TickFrom(s);
    TickKeepsInv(s);
    InvOverRuns(asked, steps);
    BetweenTicks(asked, steps, fd);
    var before := Run(asked, steps);
    TickRule(s, fd);
    TickRule(before, fd);
    CountIn(before.pending, fd);
    if fd !in asked.open {
      if fd in asked.used {
        ClosedStays(asked, steps, fd);
      }
      CountIn(BoundFds(asked.rows), fd);
      InBoundFds(asked.rows, fd);
    }
  }

  // Whatever is still in flight on the socket when a tick comes has been answered by then.
  predicate AnswersInTime(s: State, steps: seq<Step>, fd: int)
    requires IsRun(s, steps)
    decreases steps
  {
    steps == [] ||
    (&& steps[0] != Disconnect(fd) && (steps[0] == Tick ==> InFlight(s, fd) == 0)
     && AnswersInTime(Next(s, steps[0]), steps[1..], fd))
  }

  // A step that takes the binding of id to fd back by a request.
  predicate Rebinds(step: Step, id: Text, fd: int) {
    (step.Register? && step.id == id) || step == Unregister(fd)
  }

  // A socket that answers every enquiry before the next tick is never dropped and keeps its ids.
  lemma {:induction false} NeverDropped(s: State, steps: seq<Step>, fd: int, id: Text)
    requires Inv(s) && IsRun(s, steps) && fd in s.open && AnswersInTime(s, steps, fd)
    requires Row(id, 1, fd) in s.rows && forall step | step in steps :: !Rebinds(step, id, fd)
    ensures fd in Run(s, steps).open && Row(id, 1, fd) in Run(s, steps).rows
    decreases steps
  {
    if steps != [] {
      var t := Next(s, steps[0]);
      StepKeepsInv(s, steps[0]);
      assert !Rebinds(steps[0], id, fd);
      match steps[0] {
        case Tick =>
          TickRule(s, fd);
          CountIn(s.pending, fd);
        case Register(_, other) => InWithoutId(s.rows, other, Row(id, 1, fd));
        case Unregister(other) => InDeactivated(s.rows, other, Row(id, 1, fd));
        case _ =>
      }
      NeverDropped(t, steps[1..], fd, id);
    }
  }

  // No bind of the socket is handled in these steps, not even a late one.
  predicate NoBind(steps: seq<Step>, fd: int) {
    forall step | step in steps && step.Register? :: step.fd != fd
  }

  // A dropped socket leaves no row, and none comes back but by a bind queued before it was closed.
  lemma {:induction false} DroppedForGood(s: State, steps: seq<Step>, fd: int)
    requires Inv(s) && IsRun(s, steps) && fd in s.used && fd !in s.open && NoBind(steps, fd)
    requires forall r | r in s.rows :: r.fd != fd
    ensures forall r | r in Run(s, steps).rows :: r.fd != fd
    decreases steps
  {
    if steps != [] {
      var t := Next(s, steps[0]);
      StepKeepsInv(s, steps[0]);
      forall r | r in t.rows ensures r.fd != fd {
        match steps[0] {
          case Tick => InWithoutFds(s.rows, s.pending, r);
          case Register(_, id) => InWithoutId(s.rows, id, r);
          case Unregister(other) => InDeactivated(s.rows, other, r);
          case _ =>
        }
      }
      DroppedForGood(t, steps[1..], fd);
    }
  }

  // A closed socket answers nothing, so between ticks it stays on the list, and gets no live row without a bind.
  lemma {:induction false} StaleBetweenTicks(s: State, steps: seq<Step>, fd: int, id: Text)
    requires Inv(s) && IsRun(s, steps) && Tick !in steps && fd in s.used && fd !in s.open && NoBind(steps, fd)
    ensures fd in s.pending ==> fd in Run(s, steps).pending
    ensures Row(id, 1, fd) in Run(s, steps).rows ==> Row(id, 1, fd) in s.rows
    decreases steps
  {
    if steps != [] {
      var t := Next(s, steps[0]);
      StepKeepsInv(s, steps[0]);
      match steps[0] {
        case Receive(other) => if fd in s.pending { StaysOnList(s.pending, other, fd); }
        case Register(_, other) => InWithoutId(s.rows, other, Row(id, 1, fd));
        case Unregister(other) => InDeactivated(s.rows, other, Row(id, 1, fd));
        case _ =>
      }
      StaleBetweenTicks(t, steps[1..], fd, id);
    }
  }

  lemma {:induction false} StaysOnList(fds: seq<int>, other: int, fd: int)
    requires fd != other && fd in fds
    ensures fd in WithoutFirst(fds, other)
  {
    if fds[0] != other && fds[0] != fd {
      StaysOnList(fds[1..], other, fd);
    }
  }

  // A disconnect alone leaves the rows of the socket, and a late bind makes one; the second tick after it, with no
  // bind in between, has removed them.
  lemma StaleRowsGo(s: State, steps: seq<Step>, fd: int, id: Text)
    requires Inv(s) && fd in s.used && fd !in s.open && Tick !in steps && IsRun(TickFrom(s), steps)
    requires NoBind(steps, fd)
    ensures Row(id, 1, fd) !in TickFrom(Run(TickFrom(s), steps)).rows
  {
    var t := TickFrom(s);
    TickKeepsInv(s);
    InvOverRuns(t, steps);
    var u := Run(t, steps);
    StaleBetweenTicks(t, steps, fd, id);
    InBoundFds(t.rows, fd);
    InWithoutFds(u.rows, u.pending, Row(id, 1, fd));
  }

  // A late bind does bring a row back: an instance.
  lemma LateBind(fd: int, id: Text)
    ensures var steps := [Connect(fd), Disconnect(fd), Register(fd, id)];
            && IsRun(INIT, steps) && fd in Run(INIT, steps).used && fd !in Run(INIT, steps).open
            && Row(id, 1, fd) in Run(INIT, steps).rows
  {
    var steps := [Connect(fd), Disconnect(fd), Register(fd, id)];
    var s1 := Next(INIT, steps[0]);
    var s2 := Next(s1, steps[1]);
    assert steps[1..] == [Disconnect(fd), Register(fd, id)] && steps[1..][1..] == [Register(fd, id)];
    assert steps[1..][1..][1..] == [];
    var s3 := Next(s2, Register(fd, id));
    assert IsRun(s3, []) && Run(s3, []) == s3;
    assert IsRun(s2, [Register(fd, id)]) && Run(s2, [Register(fd, id)]) == s3;
    assert IsRun(s1, steps[1..]) && Run(s1, steps[1..]) == s3;
    assert Row(id, 1, fd) in s3.rows;
  }

  // The loop that takes the first entry of a socket off a list.
  method RemoveFirst(fds: seq<int>, fd: int) returns (r: seq<int>)
    ensures r == WithoutFirst(fds, fd)
  {
    hide WithoutFirst;
    var it := 0;
    assert fds[0..] == fds && [] + WithoutFirst(fds, fd) == WithoutFirst(fds, fd);
    while it < |fds|
      invariant 0 <= it <= |fds| && WithoutFirst(fds, fd) == fds[..it] + WithoutFirst(fds[it..], fd)
    {
      FirstStep(fds, fd, it);
      if fd == fds[it] {
        return fds[..it] + fds[it + 1..];
      }
      it := it + 1;
    }
    NoFirst(fd);
    assert fds[..it] + [] == fds;
    r := fds;
  }

  lemma FirstStep(fds: seq<int>, fd: int, i: nat)
    requires i < |fds|
    ensures fds[i] == fd ==> WithoutFirst(fds[i..], fd) == fds[i + 1..]
    ensures fds[i] != fd ==>
              fds[..i] + WithoutFirst(fds[i..], fd) == fds[..i + 1] + WithoutFirst(fds[i + 1..], fd)
  {
    assert fds[i..][1..] == fds[i + 1..];
    Assoc(fds[..i], [fds[i]], WithoutFirst(fds[i + 1..], fd));
    assert fds[..i + 1] == fds[..i] + [fds[i]];
  }

  lemma NoFirst(fd: int)
    ensures WithoutFirst([], fd) == []
  {}
}
