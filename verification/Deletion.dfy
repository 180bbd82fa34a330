/** Destroying a server: Wings first, then the remote databases one by one,
    then the panel rows, so that an early failure leaves everything retryable. */
module Deletion {
  import opened Common
  import opened Panel

  datatype Database = Database(server: int, host: int, name: string)

  datatype Store = Store(t: Tables, databases: map<int, Database>)

  /** How dropping one remote database ends: done, refused with the service's own error, or with an
      exception of the MySQL client that nothing catches. */
  datatype Reply = Dropped | Refused | Escaped

  datatype Failure = WingsRefused | ClientError | KeyRefused

  /** What the NOT NULL foreign key from a database row to its server does when that server is deleted. */
  datatype OnDelete = Restrict | Cascade

  /** One call of the deletion: what its surroundings answer. */
  datatype Attempt = Attempt(force: bool, wingsAccepts: bool, replies: map<int, Reply>)

  function ReplyFor(a: Attempt, d: int): Reply {
    GetOr(a.replies, d, Dropped)
  }

  /** The server's database rows. */
  function RowsFor(databases: map<int, Database>, id: int): set<int> {
    set d | d in databases && databases[d].server == id
  }

  function Orphans(databases: map<int, Database>, hosts: set<int>, rows: set<int>): set<int> {
    set d | d in rows && d in databases && databases[d].host !in hosts
  }

  /** The rows with a host whose drop was answered so. */
  function Answered(databases: map<int, Database>, hosts: set<int>, rows: set<int>, a: Attempt, reply: Reply)
    : set<int>
  {
    set d | d in rows && d in databases && databases[d].host in hosts && ReplyFor(a, d) == reply
  }

  /** The rows after the drop phase: those with a missing host and those dropped are gone. */
  function AfterDrops(databases: map<int, Database>, hosts: set<int>, rows: set<int>, a: Attempt): map<int, Database> {
    databases - Orphans(databases, hosts, rows) - Answered(databases, hosts, rows, a, Dropped)
  }

  /** DELETE of the server row with the effects of all its keys; None when one refuses it. */
  function DeleteReferenced(fk: OnDelete, s: Store, id: int): Option<Store> {
    var rows := RowsFor(s.databases, id);
    if fk == Restrict && rows != {} then None
    else Some(Store(DeleteRow(s.t, id), s.databases - rows))
  }

  predicate Completes(fk: OnDelete, s: Store, hosts: set<int>, id: int, a: Attempt) {
    var rows := RowsFor(s.databases, id);
    && (a.wingsAccepts || a.force)
    && Answered(s.databases, hosts, rows, a, Escaped) == {}
    && DeleteReferenced(fk, s.(databases := AfterDrops(s.databases, hosts, rows, a)), id).Some?
  }

  /** The panel after one attempt; an attempt that raises commits nothing. */
  function After(fk: OnDelete, s: Store, hosts: set<int>, id: int, a: Attempt): Store {
    if id !in s.t.servers || !Completes(fk, s, hosts, id, a) then s
    else
      var dropped := AfterDrops(s.databases, hosts, RowsFor(s.databases, id), a);
      DeleteReferenced(fk, s.(databases := dropped), id).value
  }

  function AfterAll(fk: OnDelete, s: Store, hosts: set<int>, id: int, attempts: seq<Attempt>): Store {
    if attempts == [] then s
    else
      var n := |attempts| - 1;
      After(fk, AfterAll(fk, s, hosts, id, attempts[..n]), hosts, id, attempts[n])
  }

  /** After any number of failed attempts one that completes reaches the panel state it would have
      reached at once. */
  lemma {:induction false} RetriesDoNotMatter(fk: OnDelete, s: Store, hosts: set<int>, id: int,
                                              failed: seq<Attempt>, last: Attempt)
    requires forall i :: 0 <= i < |failed| ==> !Completes(fk, s, hosts, id, failed[i])
    ensures AfterAll(fk, s, hosts, id, failed) == s
    ensures AfterAll(fk, s, hosts, id, failed + [last]) == After(fk, s, hosts, id, last)
  {
    assert (failed + [last])[..|failed|] == failed;
    if failed == [] {
    } else {
      var init := failed[..|failed| - 1];
      RetriesDoNotMatter(fk, s, hosts, id, init, last);
    }
  }

  /** When every drop was answered, the drop phase leaves of the server's rows exactly the refused ones. */
  lemma DropsLeaveRefused(databases: map<int, Database>, hosts: set<int>, id: int, a: Attempt)
    requires Answered(databases, hosts, RowsFor(databases, id), a, Escaped) == {}
    ensures RowsFor(AfterDrops(databases, hosts, RowsFor(databases, id), a), id)
         == Answered(databases, hosts, RowsFor(databases, id), a, Refused)
  {
    var rows := RowsFor(databases, id);
    var left := AfterDrops(databases, hosts, rows, a);
    forall d | d in rows
      ensures d in left <==> d in Answered(databases, hosts, rows, a, Refused)
    {
      assert d !in Answered(databases, hosts, rows, a, Escaped);
    }
  }

  /** A restricting key lets a deletion through only if, in addition, no drop was refused. */
  lemma CompletesIff(fk: OnDelete, s: Store, hosts: set<int>, id: int, a: Attempt)
    ensures Completes(fk, s, hosts, id, a)
       <==> && (a.wingsAccepts || a.force)
            && Answered(s.databases, hosts, RowsFor(s.databases, id), a, Escaped) == {}
            && (fk == Restrict ==> Answered(s.databases, hosts, RowsFor(s.databases, id), a, Refused) == {})
  {
    if Answered(s.databases, hosts, RowsFor(s.databases, id), a, Escaped) == {} {
      DropsLeaveRefused(s.databases, hosts, id, a);
    }
  }

  /** A completed deletion leaves no server row, no variable row, no binding and no database row of the server,
      and of everybody else's database rows all. */
  lemma CompletedDeletionLeaves(fk: OnDelete, s: Store, hosts: set<int>, id: int, a: Attempt)
    requires id in s.t.servers && Completes(fk, s, hosts, id, a)
    ensures var s' := After(fk, s, hosts, id, a);
            && id !in s'.t.servers && id !in s'.t.variables
            && (forall x :: x in s'.t.allocations ==> s'.t.allocations[x].server != Some(id))
            && s'.databases == s.databases - RowsFor(s.databases, id)
  {
    var rows := RowsFor(s.databases, id);
    var dropped := AfterDrops(s.databases, hosts, rows, a);
    assert forall d :: d in dropped ==> d in s.databases && dropped[d] == s.databases[d];
    assert forall d :: d in s.databases && d !in rows ==> d in dropped;
    assert dropped - RowsFor(dropped, id) == s.databases - rows;
  }

  /** Every database row names a server that exists. */
  predicate Referenced(s: Store) {
    forall d :: d in s.databases ==> s.databases[d].server in s.t.servers
  }

  lemma AttemptKeepsReferences(fk: OnDelete, s: Store, hosts: set<int>, id: int, a: Attempt)
    requires Referenced(s)
    ensures Referenced(After(fk, s, hosts, id, a))
  {
    if id in s.t.servers && Completes(fk, s, hosts, id, a) {
      CompletedDeletionLeaves(fk, s, hosts, id, a);
    }
  }

  /** The row of a refused drop is not kept for an operator to finish beside a deleted server: under a restricting
      key the deletion is lost and the server stays, under a cascading one the row goes with it. */
  lemma RefusedRowIsNotKept(fk: OnDelete, s: Store, hosts: set<int>, id: int, a: Attempt, d: int)
    requires id in s.t.servers
    requires d in Answered(s.databases, hosts, RowsFor(s.databases, id), a, Refused)
    ensures fk == Restrict ==> After(fk, s, hosts, id, a) == s
    ensures fk == Cascade ==>
              (id !in After(fk, s, hosts, id, a).t.servers <==> d !in After(fk, s, hosts, id, a).databases)
  {
    CompletesIff(fk, s, hosts, id, a);
    if Completes(fk, s, hosts, id, a) {
      CompletedDeletionLeaves(fk, s, hosts, id, a);
    }
  }

  lemma IdSetGrows(ids: seq<int>, i: nat)
    requires i < |ids| && Distinct(ids)
    ensures ids[i] !in IdSet(ids[..i])
    ensures IdSet(ids[..i + 1]) == IdSet(ids[..i]) + {ids[i]}
  {
    assert ids[..i + 1] == ids[..i] + [ids[i]];
  }

  lemma IdSetAppends(ids: seq<int>, d: int)
    ensures IdSet(ids + [d]) == IdSet(ids) + {d}
  {
  }

  lemma RemoveOneMore(m: map<int, Database>, gone: set<int>, d: int)
    ensures (m - gone) - {d} == m - (gone + {d})
  {
  }

  lemma OrphansGrow(databases: map<int, Database>, hosts: set<int>, seen: set<int>, d: int)
    requires d in databases && d !in seen
    ensures databases[d].host in hosts ==> Orphans(databases, hosts, seen + {d}) == Orphans(databases, hosts, seen)
    ensures databases[d].host !in hosts ==>
              && d !in Orphans(databases, hosts, seen)
              && Orphans(databases, hosts, seen + {d}) == Orphans(databases, hosts, seen) + {d}
  {
  }

  lemma AnsweredGrows(databases: map<int, Database>, hosts: set<int>, seen: set<int>, d: int, a: Attempt, reply: Reply)
    requires d in databases && d !in seen
    ensures databases[d].host in hosts && ReplyFor(a, d) == reply ==>
              && d !in Answered(databases, hosts, seen, a, reply)
              && Answered(databases, hosts, seen + {d}, a, reply) == Answered(databases, hosts, seen, a, reply) + {d}
    ensures databases[d].host !in hosts || ReplyFor(a, d) != reply ==>
              Answered(databases, hosts, seen + {d}, a, reply) == Answered(databases, hosts, seen, a, reply)
  {
  }

  /** The two moves of the first loop. */
  lemma SweepStep(databases: map<int, Database>, hosts: set<int>, seen: set<int>, d: int)
    requires d in databases && d !in seen
    ensures var before, now := Orphans(databases, hosts, seen), Orphans(databases, hosts, seen + {d});
            && (databases[d].host in hosts ==> databases - now == databases - before)
            && (databases[d].host !in hosts ==> databases - now == (databases - before) - {d})
  {
    OrphansGrow(databases, hosts, seen, d);
    RemoveOneMore(databases, Orphans(databases, hosts, seen), d);
  }

  /** What the second loop holds once it has gone through the rows `seen`. */
  ghost predicate Tally(databases: map<int, Database>, hosts: set<int>, swept: map<int, Database>, seen: set<int>,
                        a: Attempt, work: map<int, Database>, removed: nat, errors: seq<int>)
  {
    && work == swept - Answered(databases, hosts, seen, a, Dropped)
    && IdSet(errors) == Answered(databases, hosts, seen, a, Refused)
    && Answered(databases, hosts, seen, a, Escaped) == {}
    && removed == |Answered(databases, hosts, seen, a, Dropped)|
    && removed + |errors| + |Orphans(databases, hosts, seen)| == |seen|
  }

  lemma TallyStarts(databases: map<int, Database>, hosts: set<int>, swept: map<int, Database>, a: Attempt)
    ensures Tally(databases, hosts, swept, {}, a, swept, 0, [])
  {
    assert swept - {} == swept;
  }

  /** One more row and its reply, `None` for a missing host. */
  lemma TallyStep(databases: map<int, Database>, hosts: set<int>, swept: map<int, Database>, seen: set<int>,
                  now: set<int>, d: int, a: Attempt, reply: Option<Reply>, work: map<int, Database>, removed: nat,
                  errors: seq<int>)
    requires d in databases && d !in seen && now == seen + {d}
    requires Tally(databases, hosts, swept, seen, a, work, removed, errors)
    requires reply == if databases[d].host in hosts then Some(ReplyFor(a, d)) else None
    ensures reply == None ==> Tally(databases, hosts, swept, now, a, work, removed, errors)
    ensures reply == Some(Refused) ==> Tally(databases, hosts, swept, now, a, work, removed, errors + [d])
    ensures reply == Some(Dropped) ==> Tally(databases, hosts, swept, now, a, work - {d}, removed + 1, errors)
    ensures reply == Some(Escaped) ==> Answered(databases, hosts, now, a, Escaped) != {}
  {
    OrphansGrow(databases, hosts, seen, d);
    AnsweredGrows(databases, hosts, seen, d, a, Dropped);
    AnsweredGrows(databases, hosts, seen, d, a, Refused);
    AnsweredGrows(databases, hosts, seen, d, a, Escaped);
    IdSetAppends(errors, d);
    RemoveOneMore(swept, Answered(databases, hosts, seen, a, Dropped), d);
  }

  lemma AnsweredSubset(databases: map<int, Database>, hosts: set<int>, seen: set<int>, all: set<int>, a: Attempt,
                       reply: Reply)
    requires seen <= all
    ensures Answered(databases, hosts, seen, a, reply) <= Answered(databases, hosts, all, a, reply)
  {
  }

  lemma IdSetSize(ids: seq<int>)
    requires Distinct(ids)
    ensures |IdSet(ids)| == |ids|
  {
    if ids == [] {
    } else {
      var n := |ids| - 1;
      IdSetSize(ids[..n]);
      IdSetGrows(ids, n);
      assert ids[..n + 1] == ids;
    }
  }

  class ServerDeletion {
    var t: Tables
    var databases: map<int, Database>
    /** Rows whose remote database has been contacted for a drop. */
    var contacted: set<int>

    function State(): Store
      reads this
    {
      Store(t, databases)
    }

    constructor (s: Store)
      ensures State() == s && contacted == {}
    {
      t, databases, contacted := s.t, s.databases, {};
    }

    /** The first loop: the known hosts, and the rows left once those of missing hosts are deleted. */
    method SweepOrphans(hosts: set<int>, found: seq<int>)
      returns (work: map<int, Database>, hostsById: set<int>)
      requires Distinct(found) && forall i :: 0 <= i < |found| ==> found[i] in databases
      ensures work == databases - Orphans(databases, hosts, IdSet(found))
      ensures forall i :: 0 <= i < |found| ==>
                (databases[found[i]].host in hostsById <==> databases[found[i]].host in hosts)
    {
      work, hostsById := databases, {};
      for i := 0 to |found|
        invariant hostsById <= hosts
        invariant forall j :: 0 <= j < i && databases[found[j]].host in hosts ==> databases[found[j]].host in hostsById
        invariant work == databases - Orphans(databases, hosts, IdSet(found[..i]))
      {
        var d := found[i];
        IdSetGrows(found, i);
        SweepStep(databases, hosts, IdSet(found[..i]), d);
        if databases[d].host !in hostsById {
          if databases[d].host !in hosts {
            work := work - {d};
            continue;
          }
          hostsById := hostsById + {databases[d].host};
        }
      }
      assert found[..|found|] == found;
    }

    /** One pass of the second loop. */
    method DropOne(hosts: set<int>, hostsById: set<int>, d: int, a: Attempt) returns (r: Option<Reply>)
      requires d in databases && (databases[d].host in hostsById <==> databases[d].host in hosts)
      modifies this`contacted
      ensures r == if databases[d].host in hosts then Some(ReplyFor(a, d)) else None
      ensures contacted == old(contacted) + if databases[d].host in hosts then {d} else {}
    {
      if databases[d].host !in hostsById {
        return None;
      }
      contacted := contacted + {d};
      r := Some(ReplyFor(a, d));
    }

    /** The body of the second loop on one more row. */
    method DropNext(hosts: set<int>, hostsById: set<int>, d: int, a: Attempt, ghost swept: map<int, Database>,
                    ghost seen: set<int>, ghost now: set<int>, before: map<int, Database>, count: nat, failed: seq<int>)
      returns (escaped: bool, work: map<int, Database>, removed: nat, errors: seq<int>)
      requires d in databases && d !in seen && now == seen + {d}
      requires databases[d].host in hostsById <==> databases[d].host in hosts
      requires Tally(databases, hosts, swept, seen, a, before, count, failed)
      modifies this`contacted
      ensures escaped ==> Answered(databases, hosts, now, a, Escaped) != {}
      ensures !escaped ==> Tally(databases, hosts, swept, now, a, work, removed, errors)
    {
      ghost var rows := databases;
      work, removed, errors := before, count, failed;
      var reply := DropOne(hosts, hostsById, d, a);
      TallyStep(rows, hosts, swept, seen, now, d, a, reply, work, removed, errors);
      escaped := reply == Some(Escaped);
      if reply == Some(Refused) {
        errors := errors + [d];
      } else if reply == Some(Dropped) {
        work, removed := work - {d}, removed + 1;
      }
    }

    /** The second loop, from the rows that the first one left. */
    method DropEach(hosts: set<int>, hostsById: set<int>, found: seq<int>, a: Attempt, swept: map<int, Database>)
      returns (escaped: bool, work: map<int, Database>, removed: nat, errors: seq<int>)
      requires Distinct(found) && forall i :: 0 <= i < |found| ==> found[i] in databases
      requires forall i :: 0 <= i < |found| ==>
                 (databases[found[i]].host in hostsById <==> databases[found[i]].host in hosts)
      modifies this`contacted
      ensures escaped ==> Answered(databases, hosts, IdSet(found), a, Escaped) != {}
      ensures !escaped ==> Tally(databases, hosts, swept, IdSet(found), a, work, removed, errors)
    {
      escaped, work, removed, errors := false, swept, 0, [];
      ghost var rows := databases;
      TallyStarts(rows, hosts, swept, a);
      for i := 0 to |found|
        invariant databases == rows && !escaped
        invariant Tally(rows, hosts, swept, IdSet(found[..i]), a, work, removed, errors)
      {
        ghost var seen, now := IdSet(found[..i]), IdSet(found[..i + 1]);
        IdSetGrows(found, i);
        escaped, work, removed, errors :=
          DropNext(hosts, hostsById, found[i], a, swept, seen, now, work, removed, errors);
        if escaped {
          AnsweredSubset(rows, hosts, now, IdSet(found), a, Escaped);
          return;
        }
      }
      assert found[..|found|] == found;
    }

    /** `found` is the SELECT of the server's rows, in whatever order. Row deletions are uncommitted: they are
        returned. Every row is counted once: removed, in error, or an orphan. */
    method DropServerDatabases(hosts: set<int>, found: seq<int>, a: Attempt)
      returns (r: Result<(map<int, Database>, nat, seq<int>), Failure>)
      requires Distinct(found) && forall i :: 0 <= i < |found| ==> found[i] in databases
      modifies this`contacted
      ensures r == Err(ClientError) || r.Ok?
      ensures r.Err? <==> Answered(databases, hosts, IdSet(found), a, Escaped) != {}
      ensures r.Ok? ==>
                && r.value.0 == AfterDrops(databases, hosts, IdSet(found), a)
                && r.value.1 == |Answered(databases, hosts, IdSet(found), a, Dropped)|
                && r.value.1 + |r.value.2| + |Orphans(databases, hosts, IdSet(found))| == |found|
                && IdSet(r.value.2) == Answered(databases, hosts, IdSet(found), a, Refused)
    {
      var swept, hostsById := SweepOrphans(hosts, found);
      var escaped, work, removed, errors := DropEach(hosts, hostsById, found, a, swept);
      if escaped {
        return Err(ClientError);
      }
      IdSetSize(found);
      r := Ok((work, removed, errors));
    }

    /** Until Wings has destroyed the container, or the caller forces, no remote database is contacted and
        nothing in the panel changes. */
    method DeleteServer(fk: OnDelete, hosts: set<int>, id: int, found: seq<int>, a: Attempt)
      returns (r: Result<(), Failure>)
      requires Distinct(found) && IdSet(found) == RowsFor(databases, id)
      modifies this
      ensures State() == After(fk, old(State()), hosts, id, a)
      ensures r.Ok? <==> id !in old(t).servers || Completes(fk, old(State()), hosts, id, a)
      ensures contacted != old(contacted) ==> id in old(t).servers && (a.wingsAccepts || a.force)
      ensures r == Err(WingsRefused) <==> id in old(t).servers && !a.wingsAccepts && !a.force
      ensures r == Err(KeyRefused) ==>
                fk == Restrict && Answered(old(databases), hosts, RowsFor(old(databases), id), a, Refused) != {}
    {
      if id !in t.servers {
        return Ok(());
      }
      if !a.wingsAccepts && !a.force {
        return Err(WingsRefused);
      }
      assert forall i :: 0 <= i < |found| ==> found[i] in IdSet(found);
      CompletesIff(fk, State(), hosts, id, a);
      var drops := DropServerDatabases(hosts, found, a);
      if drops.Err? {
        return Err(drops.error);
      }
      var deleted := DeleteReferenced(fk, Store(t, drops.value.0), id);
      if deleted.None? {
        return Err(KeyRefused);
      }
      t, databases := deleted.value.t, deleted.value.databases;
      r := Ok(());
    }
  }
}
