/** Whole runs of the connection pool: any sequence of calls. */
module ConnRuns {
  import opened Basics
  import opened ConnLists
  import opened ConnPool

  datatype Op =
    | Add(destination: string, connectOnly: bool, close: bool, users: nat)
    | Attach(id: nat, users: nat)
    | MarkClose(id: nat, close: bool)
    | Terminate(id: nat, aborted: bool)
    | NowIdle(id: nat, maxConnects: nat)
    | CheckLimits(destination: string)
    | NwChanged
    | Perform

  /** The pooled connection with the given id. */
  method GetConn(p: Pool, id: nat) returns (r: Option<Conn>)
    requires p.Valid()
    ensures r.Some? ==> r.value in p.Pooled() && r.value.id == id
    ensures r.None? ==> forall c :: c in p.Pooled() ==> c.id != id
  {
    for i := 0 to |p.bundles|
      invariant forall c :: c in Flat(p.bundles[..i]) ==> c.id != id
    {
      FlatNext(p.bundles, i);
      r := WithId(p.bundles[i].conns, id);
      if r.Some? {
        return;
      }
    }
    assert p.bundles[..|p.bundles|] == p.bundles;
    return None;
  }

  method WithId(cs: seq<Conn>, id: nat) returns (r: Option<Conn>)
    ensures r.Some? ==> r.value in cs && r.value.id == id
    ensures r.None? ==> forall c :: c in cs ==> c.id != id
  {
    for k := 0 to |cs|
      invariant forall j :: 0 <= j < k ==> cs[j].id != id
    {
      if cs[k].id == id {
        return Some(cs[k]);
      }
    }
    return None;
  }

  /** One call at time `now`. */
  method Apply(p: Pool, op: Op, now: int)
    requires p.Valid()
    modifies p
    ensures p.Valid() && old(p.added) <= p.added
  {
    match op
    case Add(destination, connectOnly, close, users) =>
      var c := p.Add(destination, connectOnly, close, users, now);
    case Attach(id, users) =>
      if id in p.status {
        p.status := p.status[id := p.status[id].(users := users)];
      }
    case MarkClose(id, close) =>
      if id in p.status {
        p.status := p.status[id := p.status[id].(close := close)];
      }
    case Terminate(id, aborted) =>
      var r := GetConn(p, id);
      if r.Some? {
        Member(p.Pooled(), r.value);
        p.ConnTerminate(r.value, aborted);
      }
    case NowIdle(id, maxConnects) =>
      var r := GetConn(p, id);
      if r.Some? {
        var kept := p.NowIdle(r.value, maxConnects, now);
      }
    case CheckLimits(destination) =>
      var limit := p.CheckLimits(destination, now);
    case NwChanged => p.NwChanged();
    case Perform => p.Perform();
  }

  /**
   * Any run from an empty pool: every connection added is in exactly one place, the pool, the
   * shutdown list or freed; the counter is the number of pooled connections; every bundle has
   * connections, all to its own destination.
   */
  method Run(share: bool, maxHost: nat, maxTotal: nat, script: seq<(Op, int)>) returns (p: Pool)
    ensures fresh(p) && p.Valid()
    ensures forall c :: c in p.added ==>
      Occurs(p.Pooled(), c) + Occurs(p.shutdown, c) + Occurs(p.freed, c) == 1
    ensures p.numConn == |p.Pooled()| && Keyed(p.bundles)
  {
    p := new Pool(share, maxHost, maxTotal);
    for i := 0 to |script|
      invariant fresh(p) && p.Valid()
    {
      Apply(p, script[i].0, script[i].1);
    }
  }
}
