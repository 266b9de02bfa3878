/** Switch status collection and the wait for a target status. Both
    generations share this code (`get_switches_status` and
    `wait_for_switches_status` in dcnm/interfaces/dcnm_interfaces.py and
    dcnm/heirarchy/dcnm_switches.py); they differ only in how a serial's
    fabric is found and which serials are used by default, which their
    own modules supply. */
module SwitchStatus {
  import opened Wrappers
  import opened Json
  import opened Errors
  import opened Records
  import HierFabric
  import HierUtils

  /** One entry of a fabric's status listing. */
  datatype StatusRec = StatusRec(entityName: string, status: string)

  /** What `get` returned for `/control/status?...&fabricId=<id>`: the code,
      the `MESSAGE` text and the records that text decodes to. */
  datatype StatusReply = StatusReply(code: int, message: string, statuses: seq<StatusRec>)

  /** The controller as the loop sees it: the reply to `get_fabric_id` and
      its decoded fabrics, and the status reply for each fabric id. */
  datatype Env = Env(idReply: Result<Dict, Error>, idListed: seq<HierFabric.FabricRec>,
                     poll: int -> Result<StatusReply, Error>)

  /** One status request: the fabric asked, and whether its statuses were
      kept (code at most 299 and a non-empty message). */
  datatype Poll = Poll(fabric: string, collected: bool)

  /** The fabric cache, the statuses kept per fabric, and the requests made. */
  datatype State = State(fabrics: HierFabric.Fabrics, local: ODict<string, seq<StatusRec>>, polls: seq<Poll>)

  /** A fabric has kept statuses exactly when one of its requests collected
      them, and no fabric is asked again once it has. */
  ghost predicate PollsOk(st: State) {
    WellFormed(st.local) &&
    (forall f :: f in st.local.m <==> exists i :: 0 <= i < |st.polls| && st.polls[i].fabric == f && st.polls[i].collected) &&
    (forall i, j :: 0 <= i < j < |st.polls| && st.polls[i].fabric == st.polls[j].fabric ==> !st.polls[i].collected)
  }

  /** The request for one serial's fabric: skipped when its statuses are
      already kept; the fabric ids are fetched only when the fabric is not
      cached; a fabric missing from the cache or without an id raises
      KeyError; a reply above 299 or with an empty message is logged and
      not kept. */
  function Visit(fabric: string, st: State, env: Env): (r: Result<State, Error>)
    requires PollsOk(st)
    ensures r.Ok? ==> PollsOk(r.value)
    ensures fabric in st.local.m ==> r == Ok(st)
    ensures r.Ok? && fabric !in st.local.m ==>
      |r.value.polls| == |st.polls| + 1 && r.value.polls[..|st.polls|] == st.polls && r.value.polls[|st.polls|].fabric == fabric
    ensures r.Ok? ==> st.local.keys <= r.value.local.keys && st.fabrics.Keys <= r.value.fabrics.Keys
    ensures fabric in st.fabrics && fabric !in st.local.m ==> r.Ok? ==> r.value.fabrics == st.fabrics
  {
    if fabric in st.local.m then Ok(st)
    else
      var fabrics :- if fabric in st.fabrics then Ok(st.fabrics) else HierFabric.GetFabricId(env.idReply, env.idListed, st.fabrics);
      if fabric !in fabrics then Err(KeyError(fabric))
      else if fabrics[fabric].fabricId.None? then Err(KeyError("fabricId"))
      else
        var reply :- env.poll(fabrics[fabric].fabricId.value);
        var collected := reply.code <= 299 && |reply.message| > 0;
        var local := if collected then Put(st.local, fabric, reply.statuses) else st.local;
        var polls := st.polls + [Poll(fabric, collected)];
        VisitKeeps(st, fabric, collected, fabrics, reply.statuses);
        Ok(State(fabrics, local, polls))
  }

  /** Appending one request for a fabric without kept statuses keeps
      `PollsOk`. */
  lemma VisitKeeps(st: State, fabric: string, collected: bool, fabrics: HierFabric.Fabrics, statuses: seq<StatusRec>)
    requires PollsOk(st) && fabric !in st.local.m
    ensures PollsOk(State(fabrics, if collected then Put(st.local, fabric, statuses) else st.local,
                          st.polls + [Poll(fabric, collected)]))
  {
    var local := if collected then Put(st.local, fabric, statuses) else st.local;
    var polls := st.polls + [Poll(fabric, collected)];
    forall f ensures f in local.m <==> exists i :: 0 <= i < |polls| && polls[i].fabric == f && polls[i].collected {
      if f in local.m && f != fabric {
        var i :| 0 <= i < |st.polls| && st.polls[i].fabric == f && st.polls[i].collected;
        assert polls[i] == st.polls[i];
      }
      if f == fabric && collected {
        assert polls[|st.polls|].fabric == f;
      }
      if exists i :: 0 <= i < |polls| && polls[i].fabric == f && polls[i].collected {
        var i :| 0 <= i < |polls| && polls[i].fabric == f && polls[i].collected;
        if i < |st.polls| {
          assert st.polls[i] == polls[i];
        }
      }
    }
    forall i, j | 0 <= i < j < |polls| && polls[i].fabric == polls[j].fabric ensures !polls[i].collected {
      assert polls[i] == st.polls[i];
      if j < |st.polls| {
        assert polls[j] == st.polls[j];
      }
    }
  }

  /** The loop over the serials, each mapped to its fabric by `fabricOf`. */
  function Loop(serials: seq<string>, fabricOf: string -> Result<string, Error>, st: State, env: Env): (r: Result<State, Error>)
    requires PollsOk(st)
    ensures r.Ok? ==> PollsOk(r.value)
    ensures r.Ok? ==> |st.polls| <= |r.value.polls| && r.value.polls[..|st.polls|] == st.polls
    ensures r.Ok? ==> st.fabrics.Keys <= r.value.fabrics.Keys
    ensures r.Ok? ==> |r.value.polls| - |st.polls| <= |serials|
    decreases |serials|
  {
    if |serials| == 0 then Ok(st)
    else
      var fabric :- fabricOf(serials[0]);
      var next :- Visit(fabric, st, env);
      Loop(serials[1..], fabricOf, next, env)
  }

  /** `sum(local_status.values(), [])`: every kept status, fabric by fabric. */
  function Flat(keys: seq<string>, m: map<string, seq<StatusRec>>): seq<StatusRec>
    requires forall k :: 0 <= k < |keys| ==> keys[k] in m
  {
    if |keys| == 0 then [] else m[keys[0]] + Flat(keys[1..], m)
  }

  /** Keeps the statuses of the requested serials, a later record for the
      same serial replacing an earlier one. */
  function Pick(recs: seq<StatusRec>, serials: seq<string>): (r: map<string, string>)
    ensures forall sn :: sn in r ==> sn in serials
    ensures forall sn :: sn in r ==> exists k :: 0 <= k < |recs| && recs[k] == StatusRec(sn, r[sn])
    ensures forall k :: 0 <= k < |recs| && recs[k].entityName in serials ==> recs[k].entityName in r
    decreases |recs|
  {
    if |recs| == 0 then map[]
    else
      var front := recs[..|recs| - 1];
      var last := recs[|recs| - 1];
      assert forall k :: 0 <= k < |front| ==> front[k] == recs[k];
      var prev := Pick(front, serials);
      if last.entityName in serials then prev[last.entityName := last.status] else prev
  }

  const NoStatusesMsg := "ERROR: No Statuses Returned for Any Fabrics"

  /** The statuses found, and the loop's final state. */
  datatype Outcome = Outcome(statuses: map<string, string>, st: State)

  /** The common body of `get_switches_status` once the serial list is
      known: raises when no fabric returned statuses; otherwise every
      reported serial was requested. */
  function Collect(serials: seq<string>, fabricOf: string -> Result<string, Error>, fabrics: HierFabric.Fabrics, env: Env)
    : (r: Result<Outcome, Error>)
    ensures r.Ok? ==> PollsOk(r.value.st) && |r.value.st.local.m| > 0
    ensures r.Ok? ==> forall sn :: sn in r.value.statuses ==> sn in serials
    ensures r.Ok? ==> |r.value.st.polls| <= |serials|
    ensures r.Ok? ==> fabrics.Keys <= r.value.st.fabrics.Keys
  {
    var st :- Loop(serials, fabricOf, State(fabrics, EmptyDict(), []), env);
    if |st.local.m| == 0 then Err(SwitchStatus(NoStatusesMsg))
    else Ok(Outcome(Pick(Flat(st.local.keys, st.local.m), serials), st))
  }

  /** A loop whose every request is refused raises the no-statuses error. */
  lemma {:induction false} NothingCollectedRaises(serials: seq<string>, fabricOf: string -> Result<string, Error>,
                                                  fabrics: HierFabric.Fabrics, env: Env)
    requires Loop(serials, fabricOf, State(fabrics, EmptyDict(), []), env).Ok?
    requires forall i :: 0 <= i < |Loop(serials, fabricOf, State(fabrics, EmptyDict(), []), env).value.polls| ==>
      !Loop(serials, fabricOf, State(fabrics, EmptyDict(), []), env).value.polls[i].collected
    ensures Collect(serials, fabricOf, fabrics, env) == Err(SwitchStatus(NoStatusesMsg))
  {
  }

  // ---------------------------------------------------------------------
  // wait_for_switches_status

  /** True, or the switches still off the target status. */
  datatype WaitOutcome = Reached | Lagging(bad: map<string, string>)

  predicate AllAt(m: map<string, string>, target: string) {
    forall sn :: sn in m ==> m[sn] == target
  }

  function Mismatches(m: map<string, string>, target: string): (r: map<string, string>)
    ensures r.Keys <= m.Keys
    ensures forall sn :: sn in r ==> r[sn] == m[sn] && r[sn] != target
    ensures forall sn :: sn in m && m[sn] != target ==> sn in r
  {
    map sn | sn in m && m[sn] != target :: m[sn]
  }

  const NoStatusMsg := "Unable to retrieve switch statuses!"

  /** `wait_for_switches_status` over the status results obtained before
      the timeout, in order: an empty result raises, a result with every
      switch at the target returns True at once, and running out of time
      returns the mismatches of the last result. With no poll at all the
      code reads `.items()` of `None`. */
  function Wait(target: string, polls: seq<Result<map<string, string>, Error>>, last: Option<map<string, string>>)
    : (r: Result<WaitOutcome, Error>)
    requires last.Some? ==> |last.value| > 0 && !AllAt(last.value, target)
    ensures r == Ok(Reached) ==> exists i :: 0 <= i < |polls| && polls[i].Ok? && |polls[i].value| > 0 && AllAt(polls[i].value, target)
    ensures r.Ok? && r.value.Lagging? ==> |r.value.bad| > 0
    ensures r.Ok? && r.value.Lagging? && |polls| > 0 ==>
      polls[|polls| - 1].Ok? && r.value.bad == Mismatches(polls[|polls| - 1].value, target)
    ensures |polls| == 0 && last.None? ==> r == Err(AttributeError("items"))
    ensures |polls| > 0 && polls[0].Err? ==> r == Err(polls[0].error)
    ensures |polls| > 0 && polls[0].Ok? && |polls[0].value| == 0 ==> r == Err(SwitchStatus(NoStatusMsg))
    ensures |polls| > 0 && polls[0].Ok? && |polls[0].value| > 0 && AllAt(polls[0].value, target) ==> r == Ok(Reached)
    decreases |polls|
  {
    if |polls| == 0 then
      if last.None? then Err(AttributeError("items")) else Ok(Lagging(Mismatches(last.value, target)))
    else
      var m :- polls[0];
      if |m| == 0 then Err(SwitchStatus(NoStatusMsg))
      else if AllAt(m, target) then Ok(Reached)
      else
        var r := Wait(target, polls[1..], Some(m));
        assert r == Ok(Reached) ==> exists i :: 1 <= i < |polls| && polls[i].Ok? && |polls[i].value| > 0 && AllAt(polls[i].value, target) by {
          if r == Ok(Reached) {
            var i :| 0 <= i < |polls[1..]| && polls[1..][i].Ok? && |polls[1..][i].value| > 0 && AllAt(polls[1..][i].value, target);
            assert polls[i + 1] == polls[1..][i];
          }
        }
        r
  }

  /** A result with every switch at the target ends the wait with True,
      whatever follows. */
  lemma WaitStopsAtTarget(target: string, m: map<string, string>, rest: seq<Result<map<string, string>, Error>>)
    requires |m| > 0 && AllAt(m, target)
    ensures Wait(target, [Ok(m)] + rest, None) == Ok(Reached)
  {
  }

  /** Results that never reach the target end with the last one's
      mismatches. */
  lemma {:induction false} WaitTimesOut(target: string, polls: seq<Result<map<string, string>, Error>>, last: Option<map<string, string>>)
    requires last.Some? ==> |last.value| > 0 && !AllAt(last.value, target)
    requires |polls| > 0
    requires forall i :: 0 <= i < |polls| ==> polls[i].Ok? && |polls[i].value| > 0 && !AllAt(polls[i].value, target)
    ensures Wait(target, polls, last) == Ok(Lagging(Mismatches(polls[|polls| - 1].value, target)))
    decreases |polls|
  {
    if |polls| > 1 {
      assert forall i :: 0 <= i < |polls[1..]| ==> polls[1..][i] == polls[i + 1];
      WaitTimesOut(target, polls[1..], Some(polls[0].value));
    }
  }

  /** A poll the wait goes past: it answered, named some switch, and
      some switch was off the target. */
  predicate Lags(p: Result<map<string, string>, Error>, target: string) {
    p.Ok? && |p.value| > 0 && !AllAt(p.value, target)
  }

  /** The first poll that does not lag decides the wait, whatever came
      before it and whatever follows: a failed poll raises its exception,
      an empty one raises the switch-status error, and one with every
      switch at the target returns True. */
  lemma {:induction false} WaitDecidedByFirstNonLagging(target: string, pre: seq<Result<map<string, string>, Error>>,
                                                         p: Result<map<string, string>, Error>,
                                                         rest: seq<Result<map<string, string>, Error>>,
                                                         last: Option<map<string, string>>)
    requires last.Some? ==> |last.value| > 0 && !AllAt(last.value, target)
    requires forall i :: 0 <= i < |pre| ==> Lags(pre[i], target)
    requires !Lags(p, target)
    ensures p.Err? ==> Wait(target, pre + [p] + rest, last) == Err(p.error)
    ensures p.Ok? && |p.value| == 0 ==> Wait(target, pre + [p] + rest, last) == Err(SwitchStatus(NoStatusMsg))
    ensures p.Ok? && |p.value| > 0 ==> Wait(target, pre + [p] + rest, last) == Ok(Reached)
    decreases |pre|
  {
    var polls := pre + [p] + rest;
    if |pre| == 0 {
      assert polls[0] == p;
    } else {
      assert polls[0] == pre[0];
      assert polls[1..] == pre[1..] + [p] + rest;
      assert forall i :: 0 <= i < |pre[1..]| ==> pre[1..][i] == pre[i + 1];
      WaitDecidedByFirstNonLagging(target, pre[1..], p, rest, Some(pre[0].value));
    }
  }

  /** `wait_for_switches_status` behind its `spinner` decorator: any
      exception of the wait leaves as UnboundLocalError. */
  function WaitForSwitchesStatus(target: string, polls: seq<Result<map<string, string>, Error>>)
    : (r: Result<WaitOutcome, Error>)
    ensures r.Ok? <==> Wait(target, polls, None).Ok?
    ensures r.Ok? ==> r == Wait(target, polls, None)
    ensures r.Err? ==> r.error == UnboundLocal("value")
    ensures r == Ok(Reached) ==>
      exists i :: 0 <= i < |polls| && polls[i].Ok? && |polls[i].value| > 0 && AllAt(polls[i].value, target)
  {
    HierUtils.Spinner(Wait(target, polls, None))
  }
}
