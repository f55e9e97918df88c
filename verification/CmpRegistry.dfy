/** The table of bound controllers: rows without a key, kept by delete-then-insert. */
module CmpRegistry {
  import opened CText

  datatype Row = Row(id: Text, status: int, fd: int)

  type Rows = seq<Row>

  // DELETE ... WHERE id =
  function WithoutId(rows: Rows, id: Text): Rows {
    if rows == [] then []
    else (if rows[0].id == id then [] else [rows[0]]) + WithoutId(rows[1..], id)
  }

  // DELETE ... WHERE socket_fd =
  function WithoutFd(rows: Rows, fd: int): Rows {
    if rows == [] then []
    else (if rows[0].fd == fd then [] else [rows[0]]) + WithoutFd(rows[1..], fd)
  }

  // UPDATE ... SET status = 0 WHERE socket_fd =
  function Deactivated(rows: Rows, fd: int): Rows {
    if rows == [] then []
    else [if rows[0].fd == fd then rows[0].(status := 0) else rows[0]] + Deactivated(rows[1..], fd)
  }

  // SELECT socket_fd ... WHERE status = 1
  function BoundFds(rows: Rows): seq<int> {
    if rows == [] then [] else (if rows[0].status == 1 then [rows[0].fd] else []) + BoundFds(rows[1..])
  }

  // SELECT socket_fd ... WHERE status = 1 AND id =
  function FdsOf(rows: Rows, id: Text): seq<int> {
    if rows == [] then []
    else (if rows[0].status == 1 && rows[0].id == id then [rows[0].fd] else []) + FdsOf(rows[1..], id)
  }

  predicate UniqueIds(rows: Rows) {
    forall i, j | 0 <= i < j < |rows| :: rows[i].id != rows[j].id
  }

  datatype Event = Bind(id: Text, fd: int) | Drop(fd: int) | Unbind(fd: int)

  function Apply(rows: Rows, e: Event): Rows {
    match e
    case Bind(id, fd) => WithoutId(rows, id) + [Row(id, 1, fd)]
    case Drop(fd) => WithoutFd(rows, fd)
    case Unbind(fd) => Deactivated(rows, fd)
  }

  // The table after a history that began with an empty one.
  function After(history: seq<Event>): Rows {
    if history == [] then [] else Apply(After(history[..|history| - 1]), history[|history| - 1])
  }

  lemma AfterMore(history: seq<Event>, e: Event)
    ensures After(history + [e]) == Apply(After(history), e)
  {
    assert (history + [e])[..|history|] == history;
  }

  predicate Clears(e: Event, id: Text, fd: int) {
    (e.Bind? && e.id == id) || (!e.Bind? && e.fd == fd)
  }

  // Event i bound id to fd; id was not bound again since, nor fd dropped or unbound.
  predicate Holds(history: seq<Event>, i: int, id: Text, fd: int) {
    && 0 <= i < |history| && history[i] == Bind(id, fd)
    && forall j | i < j < |history| :: !Clears(history[j], id, fd)
  }

  ghost predicate IsBound(history: seq<Event>, id: Text, fd: int) {
    exists i :: Holds(history, i, id, fd)
  }

  lemma {:induction false} InWithoutId(rows: Rows, id: Text, r: Row)
    ensures r in WithoutId(rows, id) <==> r in rows && r.id != id
  {
    if rows != [] {
      InWithoutId(rows[1..], id, r);
      assert r in rows <==> r == rows[0] || r in rows[1..];
    }
  }

  lemma {:induction false} InWithoutFd(rows: Rows, fd: int, r: Row)
    ensures r in WithoutFd(rows, fd) <==> r in rows && r.fd != fd
  {
    if rows != [] {
      InWithoutFd(rows[1..], fd, r);
      assert r in rows <==> r == rows[0] || r in rows[1..];
    }
  }

  lemma {:induction false} InDeactivated(rows: Rows, fd: int, r: Row)
    ensures r in Deactivated(rows, fd)
       <==> if r.fd == fd then r.status == 0 && exists q :: q in rows && q.id == r.id && q.fd == fd else r in rows
  {
    if rows != [] {
      InDeactivated(rows[1..], fd, r);
      assert r in rows <==> r == rows[0] || r in rows[1..];
    }
  }

  lemma {:induction false} InFdsOf(rows: Rows, id: Text, fd: int)
    ensures fd in FdsOf(rows, id) <==> Row(id, 1, fd) in rows
  {
    if rows != [] {
      InFdsOf(rows[1..], id, fd);
    }
  }

  lemma {:induction false} InBoundFds(rows: Rows, fd: int)
    ensures fd in BoundFds(rows) <==> exists r :: r in rows && r.status == 1 && r.fd == fd
  {
    if rows != [] {
      InBoundFds(rows[1..], fd);
    }
  }

  // The table of a history holds a live row for exactly the bindings in force.
  lemma {:induction false} RowsAreBindings(history: seq<Event>, id: Text, fd: int)
    ensures Row(id, 1, fd) in After(history) <==> IsBound(history, id, fd)
  {
    if history != [] {
      var n := |history| - 1;
      var before, e := history[..n], history[n];
      RowsAreBindings(before, id, fd);
      BindingStep(before, e, id, fd);
      assert history == before + [e];
      match e {
        case Bind(i, f) => InWithoutId(After(before), i, Row(id, 1, fd));
        case Drop(f) => InWithoutFd(After(before), f, Row(id, 1, fd));
        case Unbind(f) => InDeactivated(After(before), f, Row(id, 1, fd));
      }
    }
  }

  lemma BindingStep(before: seq<Event>, e: Event, id: Text, fd: int)
    ensures IsBound(before + [e], id, fd) <==> e == Bind(id, fd) || (IsBound(before, id, fd) && !Clears(e, id, fd))
  {
    var history := before + [e];
    if e == Bind(id, fd) {
      assert Holds(history, |before|, id, fd);
    }
    if IsBound(before, id, fd) && !Clears(e, id, fd) {
      var i :| Holds(before, i, id, fd);
      assert Holds(history, i, id, fd);
    }
    if IsBound(history, id, fd) && e != Bind(id, fd) {
      var i :| Holds(history, i, id, fd);
      assert history[|before|] == e;
      assert forall j | i < j < |before| :: before[j] == history[j];
      assert Holds(before, i, id, fd);
    }
  }

  lemma {:induction false} UniqueWithoutId(rows: Rows, id: Text)
    requires UniqueIds(rows)
    ensures UniqueIds(WithoutId(rows, id))
  {
    if rows != [] {
      UniqueWithoutId(rows[1..], id);
      forall q | q in WithoutId(rows[1..], id) ensures q.id != rows[0].id {
        InWithoutId(rows[1..], id, q);
      }
    }
  }

  lemma {:induction false} UniqueWithoutFd(rows: Rows, fd: int)
    requires UniqueIds(rows)
    ensures UniqueIds(WithoutFd(rows, fd))
  {
    if rows != [] {
      UniqueWithoutFd(rows[1..], fd);
      forall q | q in WithoutFd(rows[1..], fd) ensures q.id != rows[0].id {
        InWithoutFd(rows[1..], fd, q);
      }
    }
  }

  lemma {:induction false} SameIds(rows: Rows, fd: int)
    ensures |Deactivated(rows, fd)| == |rows|
    ensures forall i | 0 <= i < |rows| :: Deactivated(rows, fd)[i].id == rows[i].id
  {
    if rows != [] {
      SameIds(rows[1..], fd);
    }
  }

  // One statement keeps the ids unique.
  lemma UniqueStep(rows: Rows, e: Event)
    requires UniqueIds(rows)
    ensures UniqueIds(Apply(rows, e))
  {
    match e {
      case Bind(id, fd) =>
        UniqueWithoutId(rows, id);
        var kept := WithoutId(rows, id);
        forall i | 0 <= i < |kept| ensures kept[i].id != id {
          InWithoutId(rows, id, kept[i]);
        }
      case Drop(fd) => UniqueWithoutFd(rows, fd);
      case Unbind(fd) => SameIds(rows, fd);
    }
  }

  // Over any history no id is in the table twice, though no key forbids it.
  lemma {:induction false} IdsStayUnique(history: seq<Event>)
    ensures UniqueIds(After(history))
  {
    if history != [] {
      IdsStayUnique(history[..|history| - 1]);
      UniqueStep(After(history[..|history| - 1]), history[|history| - 1]);
    }
  }

  lemma {:induction false} OneFdOf(rows: Rows, id: Text)
    requires UniqueIds(rows)
    ensures |FdsOf(rows, id)| <= 1
    ensures |FdsOf(rows, id)| == 1 ==> exists r :: r in rows && r.id == id
  {
    if rows != [] {
      OneFdOf(rows[1..], id);
    }
  }

  // getControllerSocketFD
  function Lookup(rows: Rows, id: Text): int {
    if FdsOf(rows, id) == [] then -1 else FdsOf(rows, id)[0]
  }

  // The lookup yields the fd of the latest bind of the id, unless that fd was dropped or unbound since.
  lemma LookupIsLatestBind(history: seq<Event>, id: Text, fd: int)
    ensures FdsOf(After(history), id) == [fd] <==> IsBound(history, id, fd)
    ensures IsBound(history, id, fd) ==> Lookup(After(history), id) == fd
    ensures (forall f :: !IsBound(history, id, f)) ==> Lookup(After(history), id) == -1
  {
    var rows := After(history);
    IdsStayUnique(history);
    OneFdOf(rows, id);
    InFdsOf(rows, id, fd);
    RowsAreBindings(history, id, fd);
    var fds := FdsOf(rows, id);
    if fds != [] {
      InFdsOf(rows, id, fds[0]);
      RowsAreBindings(history, id, fds[0]);
      assert fds == [fds[0]];
    }
  }

  // The fds asked to keep alive are those of the bindings in force.
  lemma BoundFdsAreBindings(history: seq<Event>, fd: int)
    ensures fd in BoundFds(After(history)) <==> exists id :: IsBound(history, id, fd)
  {
    var rows := After(history);
    InBoundFds(rows, fd);
    if fd in BoundFds(rows) {
      var r :| r in rows && r.status == 1 && r.fd == fd;
      assert r == Row(r.id, 1, fd);
      RowsAreBindings(history, r.id, fd);
    }
    if id :| IsBound(history, id, fd) {
      RowsAreBindings(history, id, fd);
    }
  }
}
