/** Why the plan is right for every list of requests. */
module PlannerProofs {
  import opened Basics
  import opened Planner

  /** What the requests so far have made of a file, as the client sees it. */
  datatype Life = Shut | Up | Gone

  function LifeStep(life: Life, r: Req, f: Name): Life {
    if Opens(r, f) then Up
    else if Removes(r, f) then Gone
    else if r.kind == CLOSE && r.name == Some(f) then Shut
    else life
  }

  function LifeOf(plan: seq<Req>, f: Name): Life {
    if |plan| == 0 then Shut else LifeStep(LifeOf(plan[..|plan| - 1], f), plan[|plan| - 1], f)
  }

  function Closes(plan: seq<Req>, f: Name): nat {
    if |plan| == 0 then 0
    else Closes(plan[..|plan| - 1], f) +
         if plan[|plan| - 1].kind == CLOSE && plan[|plan| - 1].name == Some(f) then 1 else 0
  }

  /** The plan without what the pass made up. */
  function Erase(plan: seq<Req>): seq<Req> {
    if |plan| == 0 then []
    else Erase(plan[..|plan| - 1]) + if IsMade(plan[|plan| - 1]) then [] else [plan[|plan| - 1]]
  }

  /** The kind of the last request that names f. */
  function LastKind(reqs: seq<Req>, f: Name): Option<Kind> {
    if |reqs| == 0 then None
    else if reqs[|reqs| - 1].name == Some(f) then Some(reqs[|reqs| - 1].kind)
    else LastKind(reqs[..|reqs| - 1], f)
  }

  lemma Extended(plan: seq<Req>, r: Req, f: Name)
    ensures LifeOf(plan + [r], f) == LifeStep(LifeOf(plan, f), r, f)
    ensures Closes(plan + [r], f) == Closes(plan, f) + if r.kind == CLOSE && r.name == Some(f) then 1 else 0
    ensures Erase(plan + [r]) == Erase(plan) + if IsMade(r) then [] else [r]
    ensures ScanBack(plan + [r], f) == if Removes(r, f) then 1 else if Opens(r, f) then -1 else ScanBack(plan, f)
    ensures LastKind(plan + [r], f) == if r.name == Some(f) then Some(r.kind) else LastKind(plan, f)
  {
    assert (plan + [r])[..|plan|] == plan;
  }

  /** While f has not been closed, the backward scan knows whether it is open. */
  lemma {:induction false} ScanIsLife(out: seq<Req>, f: Name)
    requires Closes(out, f) == 0
    ensures ScanBack(out, f) == -1 <==> LifeOf(out, f) == Up
    ensures ScanBack(out, f) == 1 <==> LifeOf(out, f) == Gone
  {
    if |out| > 0 {
      ScanIsLife(out[..|out| - 1], f);
    }
  }

  /** Request k of the plan comes at the right moment. */
  predicate InPlace(plan: seq<Req>, k: nat)
    requires k < |plan|
  {
    var r := plan[k];
    r.name.Some? ==>
      var f := r.name.value;
      && (!IsMade(r) && r.kind != READN ==> LifeOf(plan[..k], f) == Up)
      && (r.kind == OPEN ==> LifeOf(plan[..k], f) != Up)
      && (r.kind == CLOSE ==> LifeOf(plan[..k], f) == Up)
      && (r.kind == WRITE ==> k > 0 && plan[k - 1] == Made(CREATE_LOCK, f))
      && (r.kind == REMOVE ==> k > 0 && plan[k - 1] == Made(OPEN_LOCK, f))
  }

  ghost predicate AllInPlace(plan: seq<Req>) {
    forall k :: 0 <= k < |plan| ==> InPlace(plan, k)
  }

  /** After its close a file is never named again. */
  ghost predicate CloseIsLast(plan: seq<Req>) {
    forall k, l :: 0 <= k < l < |plan| && plan[k].kind == CLOSE ==> plan[l].name != plan[k].name
  }

  lemma InPlaceMore(plan: seq<Req>, r: Req)
    requires AllInPlace(plan) && InPlace(plan + [r], |plan|)
    ensures AllInPlace(plan + [r])
  {
    var more := plan + [r];
    forall k | 0 <= k < |more| ensures InPlace(more, k) {
      if k < |plan| {
        assert InPlace(plan, k) && more[..k] == plan[..k];
      }
    }
  }

  lemma {:induction false} ClosesCounts(plan: seq<Req>, f: Name)
    requires Closes(plan, f) == 0
    ensures forall k :: 0 <= k < |plan| ==> !(plan[k].kind == CLOSE && plan[k].name == Some(f))
  {
    if |plan| > 0 {
      ClosesCounts(plan[..|plan| - 1], f);
    }
  }

  lemma CloseIsLastMore(plan: seq<Req>, r: Req)
    requires CloseIsLast(plan) && (r.name.Some? ==> Closes(plan, r.name.value) == 0)
    requires forall k :: 0 <= k < |plan| && plan[k].kind == CLOSE ==> plan[k].name.Some?
    ensures CloseIsLast(plan + [r])
  {
    if r.name.Some? {
      ClosesCounts(plan, r.name.value);
    }
  }

  /** The state of one file after request i - 1: as long as it will be named again
      it has not been closed; afterwards it has been closed once, or removed. */
  ghost predicate FileDone(reqs: seq<Req>, i: nat, out: seq<Req>, f: Name)
    requires i <= |reqs|
  {
    if NamedFrom(reqs, i, f) then Closes(out, f) == 0
    else
      match LastKind(reqs[..i], f)
      case None => Closes(out, f) == 0 && LifeOf(out, f) == Shut
      case Some(REMOVE) => Closes(out, f) == 0 && LifeOf(out, f) == Gone
      case Some(_) => Closes(out, f) == 1 && LifeOf(out, f) == Shut
  }

  ghost predicate ClosesNamed(plan: seq<Req>) {
    forall k :: 0 <= k < |plan| && plan[k].kind == CLOSE ==> plan[k].name.Some?
  }

  ghost predicate PlanInv(reqs: seq<Req>, i: nat, out: seq<Req>)
    requires i <= |reqs|
  {
    && AllInPlace(out) && CloseIsLast(out) && ClosesNamed(out)
    && Erase(out) == reqs[..i]
    && forall f :: FileDone(reqs, i, out, f)
  }

  /** One more request of the plan. */
  lemma PlanMore(plan: seq<Req>, r: Req)
    requires AllInPlace(plan) && CloseIsLast(plan) && ClosesNamed(plan)
    requires InPlace(plan + [r], |plan|)
    requires r.name.Some? ==> Closes(plan, r.name.value) == 0
    requires r.kind == CLOSE ==> r.name.Some?
    ensures AllInPlace(plan + [r]) && CloseIsLast(plan + [r]) && ClosesNamed(plan + [r])
  {
    InPlaceMore(plan, r);
    CloseIsLastMore(plan, r);
  }

  /** The made-up opening in front of request r leaves the file open. */
  lemma PreludeOpens(out: seq<Req>, r: Req)
    requires AllInPlace(out) && CloseIsLast(out) && ClosesNamed(out)
    requires Command(r) && (r.name.Some? ==> Closes(out, r.name.value) == 0)
    ensures var mid := out + Prelude(out, r);
            && AllInPlace(mid) && CloseIsLast(mid) && ClosesNamed(mid) && Erase(mid) == Erase(out)
            && (forall g :: Closes(mid, g) == Closes(out, g))
            && (forall g :: Some(g) != r.name ==> LifeOf(mid, g) == LifeOf(out, g))
            && (r.name.Some? ==> LifeOf(mid, r.name.value) == Up)
            && InPlace(mid + [r], |mid|)
  {
    var pre := Prelude(out, r);
    var mid := out + pre;
    if r.name.Some? {
      ScanIsLife(out, r.name.value);
    }
    if |pre| == 0 {
      assert mid == out;
    } else {
      assert pre == [pre[0]] && mid == out + [pre[0]];
      forall g ensures Closes(mid, g) == Closes(out, g) && (Some(g) != r.name ==> LifeOf(mid, g) == LifeOf(out, g)) {
        Extended(out, pre[0], g);
      }
      Extended(out, pre[0], r.name.value);
      assert mid[..|out|] == out;
      PlanMore(out, pre[0]);
    }
    assert (mid + [r])[..|mid|] == mid;
    assert (mid + [r])[|mid| - 1 + 1] == r;
  }

  ghost predicate WellPlaced(plan: seq<Req>) {
    AllInPlace(plan) && CloseIsLast(plan) && ClosesNamed(plan)
  }

  /** The request itself. */
  lemma RequestPlaced(mid: seq<Req>, r: Req)
    requires WellPlaced(mid) && Command(r) && InPlace(mid + [r], |mid|)
    requires r.name.Some? ==> Closes(mid, r.name.value) == 0
    ensures WellPlaced(mid + [r])
    ensures Erase(mid + [r]) == Erase(mid) + [r]
    ensures forall g :: Closes(mid + [r], g) == Closes(mid, g)
    ensures forall g :: LifeOf(mid + [r], g) == if Removes(r, g) then Gone else LifeOf(mid, g)
  {
    PlanMore(mid, r);
    Extended(mid, r, []);
    forall g
      ensures Closes(mid + [r], g) == Closes(mid, g)
      ensures LifeOf(mid + [r], g) == if Removes(r, g) then Gone else LifeOf(mid, g)
    {
      Extended(mid, r, g);
    }
  }

  /** The made-up close behind it. */
  lemma EpilogueCloses(reqs: seq<Req>, i: nat, upto: seq<Req>)
    requires i < |reqs| && WellPlaced(upto) && Command(reqs[i])
    requires reqs[i].name.Some? ==>
               Closes(upto, reqs[i].name.value) == 0 &&
               LifeOf(upto, reqs[i].name.value) == if reqs[i].kind == REMOVE then Gone else Up
    ensures var end := upto + Epilogue(reqs, i, upto);
            && WellPlaced(end) && Erase(end) == Erase(upto)
            && (forall g :: Some(g) != reqs[i].name ==>
                  Closes(end, g) == Closes(upto, g) && LifeOf(end, g) == LifeOf(upto, g))
            && (reqs[i].name.Some? ==>
                  var f := reqs[i].name.value;
                  if reqs[i].kind == REMOVE || NamedFrom(reqs, i + 1, f) then
                    Closes(end, f) == 0 && LifeOf(end, f) == LifeOf(upto, f)
                  else Closes(end, f) == 1 && LifeOf(end, f) == Shut)
  {
    var ep := Epilogue(reqs, i, upto);
    if reqs[i].name.Some? {
      ScanIsLife(upto, reqs[i].name.value);
    }
    if |ep| == 0 {
      assert upto + ep == upto;
    } else {
      assert ep == [ep[0]];
      assert (upto + ep)[..|upto|] == upto;
      PlanMore(upto, ep[0]);
      forall g
        ensures Closes(upto + ep, g) == Closes(upto, g) + if reqs[i].name == Some(g) then 1 else 0
        ensures LifeOf(upto + ep, g) == if reqs[i].name == Some(g) then Shut else LifeOf(upto, g)
      {
        Extended(upto, ep[0], g);
      }
      Extended(upto, ep[0], []);
    }
  }

  lemma OthersNamed(reqs: seq<Req>, i: nat, f: Name)
    requires i < |reqs| && reqs[i].name != Some(f)
    ensures NamedFrom(reqs, i, f) == NamedFrom(reqs, i + 1, f)
    ensures LastKind(reqs[..i + 1], f) == LastKind(reqs[..i], f)
  {
    assert reqs[..i + 1] == reqs[..i] + [reqs[i]];
    Extended(reqs[..i], reqs[i], f);
  }

  /** What planning request i makes of file f. */
  ghost predicate EmitEffect(reqs: seq<Req>, i: nat, out: seq<Req>, end: seq<Req>, f: Name)
    requires i < |reqs|
  {
    if reqs[i].name != Some(f) then Closes(end, f) == Closes(out, f) && LifeOf(end, f) == LifeOf(out, f)
    else if reqs[i].kind == REMOVE then Closes(end, f) == 0 && LifeOf(end, f) == Gone
    else if NamedFrom(reqs, i + 1, f) then Closes(end, f) == 0
    else Closes(end, f) == 1 && LifeOf(end, f) == Shut
  }

  lemma EmitPlaced(reqs: seq<Req>, i: nat, out: seq<Req>)
    requires Commands(reqs) && i < |reqs| && WellPlaced(out)
    requires reqs[i].name.Some? ==> Closes(out, reqs[i].name.value) == 0
    ensures WellPlaced(Emit(reqs, i, out)) && Erase(Emit(reqs, i, out)) == Erase(out) + [reqs[i]]
    ensures forall f :: EmitEffect(reqs, i, out, Emit(reqs, i, out), f)
  {
    var r := reqs[i];
    var mid := out + Prelude(out, r);
    assert Command(r);
    PreludeOpens(out, r);
    RequestPlaced(mid, r);
    EpilogueCloses(reqs, i, mid + [r]);
  }

  lemma FileDoneStep(reqs: seq<Req>, i: nat, out: seq<Req>, end: seq<Req>, f: Name)
    requires Commands(reqs) && i < |reqs| && FileDone(reqs, i, out, f) && EmitEffect(reqs, i, out, end, f)
    ensures FileDone(reqs, i + 1, end, f)
  {
    var r := reqs[i];
    assert Command(r) && reqs[..i + 1] == reqs[..i] + [r];
    Extended(reqs[..i], r, f);
    if r.name != Some(f) {
      OthersNamed(reqs, i, f);
    }
  }

  lemma EmitKeepsInv(reqs: seq<Req>, i: nat, out: seq<Req>)
    requires Commands(reqs) && i < |reqs| && PlanInv(reqs, i, out)
    ensures PlanInv(reqs, i + 1, Emit(reqs, i, out))
  {
    var r, next := reqs[i], i + 1;
    if r.name.Some? {
      assert FileDone(reqs, i, out, r.name.value) && NamedFrom(reqs, i, r.name.value);
    }
    EmitPlaced(reqs, i, out);
    var end := Emit(reqs, i, out);
    assert reqs[..next] == reqs[..i] + [r];
    forall f ensures FileDone(reqs, next, end, f) {
      FileDoneStep(reqs, i, out, end, f);
    }
  }

  lemma {:induction false} PlanFromKeepsInv(reqs: seq<Req>, i: nat, out: seq<Req>)
    requires Commands(reqs) && i <= |reqs| && PlanInv(reqs, i, out)
    ensures PlanInv(reqs, |reqs|, PlanFrom(reqs, i, out))
    decreases |reqs| - i
  {
    if i < |reqs| {
      EmitKeepsInv(reqs, i, out);
      PlanFromKeepsInv(reqs, i + 1, Emit(reqs, i, out));
    }
  }

  lemma PlanGood(reqs: seq<Req>)
    requires Commands(reqs)
    ensures PlanInv(reqs, |reqs|, Plan(reqs))
  {
    forall f ensures FileDone(reqs, 0, [], f) {
      assert reqs[..0] == [];
    }
    PlanFromKeepsInv(reqs, 0, []);
  }

  // ------------------------------------------------ what the made-up ones are for

  /** Request k, if made up, belongs to the user request beside it: an OPEN to the one
      behind it that wants an open file, an OPEN_LOCK to a REMOVE, a CREATE_LOCK to a
      WRITE, and a CLOSE to the one before it.  It carries nothing but the name. */
  predicate Attached(plan: seq<Req>, k: nat)
    requires k < |plan|
  {
    var r := plan[k];
    IsMade(r) ==>
      && r.name.Some? && r == Made(r.kind, r.name.value)
      && if r.kind == CLOSE then
           k > 0 && plan[k - 1].name == r.name && WantsClose(plan[k - 1].kind)
         else
           k + 1 < |plan| && plan[k + 1].name == r.name &&
           match r.kind
           case OPEN => WantsOpen(plan[k + 1].kind)
           case OPEN_LOCK => plan[k + 1].kind == REMOVE
           case _ => plan[k + 1].kind == WRITE
  }

  ghost predicate AllAttached(plan: seq<Req>) {
    forall k :: 0 <= k < |plan| ==> Attached(plan, k)
  }

  lemma EmitAttached(reqs: seq<Req>, i: nat, out: seq<Req>)
    requires Commands(reqs) && i < |reqs| && AllAttached(out)
    ensures AllAttached(Emit(reqs, i, out))
  {
    var r := reqs[i];
    var pre, upto := Prelude(out, r), out + Prelude(out, r) + [r];
    var ep, plan := Epilogue(reqs, i, upto), Emit(reqs, i, out);
    assert Command(r) && |pre| <= 1 && |ep| <= 1;
    forall k | 0 <= k < |plan| ensures Attached(plan, k) {
      if k < |out| {
        assert Attached(out, k) && plan[k] == out[k];
        assert k + 1 < |out| ==> plan[k + 1] == out[k + 1];
      } else if k == |out| && |pre| == 1 {
        assert plan[k] == pre[0] && plan[k + 1] == r;
      } else if k == |out| + |pre| {
        assert plan[k] == r;
      } else {
        assert plan[k] == ep[0] && plan[k - 1] == r;
      }
    }
  }

  lemma {:induction false} PlanFromAttached(reqs: seq<Req>, i: nat, out: seq<Req>)
    requires Commands(reqs) && i <= |reqs| && AllAttached(out)
    ensures AllAttached(PlanFrom(reqs, i, out))
    decreases |reqs| - i
  {
    if i < |reqs| {
      EmitAttached(reqs, i, out);
      PlanFromAttached(reqs, i + 1, Emit(reqs, i, out));
    }
  }

  // --------------------------------------------------------------- the results

  /** Lifecycle: every request that needs an open file finds it open, an OPEN is
      only made up for a file that is not, every WRITE directly follows its
      CREATE_LOCK and every REMOVE its OPEN_LOCK, and a CLOSE is the last request
      that names its file.  Conversely nothing is made up for any other purpose: the
      lock is only taken for a REMOVE, a file is only created for a WRITE, and a plain
      OPEN is there for the READ, APPEND, LOCK or UNLOCK behind it. */
  lemma PlanLifecycle(reqs: seq<Req>, k: nat)
    requires Commands(reqs) && k < |Plan(reqs)| && Plan(reqs)[k].name.Some?
    ensures var plan, r := Plan(reqs), Plan(reqs)[k];
            var life := LifeOf(plan[..k], r.name.value);
            && (r.kind in {READ, APPEND, LOCK, UNLOCK, WRITE, REMOVE, CLOSE} ==> life == Up)
            && (r.kind == OPEN ==> life != Up)
            && (r.kind == WRITE ==> k > 0 && plan[k - 1] == Made(CREATE_LOCK, r.name.value))
            && (r.kind == REMOVE ==> k > 0 && plan[k - 1] == Made(OPEN_LOCK, r.name.value))
            && (r.kind == CLOSE ==> forall l :: k < l < |plan| ==> plan[l].name != r.name)
            && Attached(plan, k)
            && (r.kind == OPEN_LOCK ==> k + 1 < |plan| && plan[k + 1].kind == REMOVE && plan[k + 1].name == r.name)
            && (r.kind == CREATE_LOCK ==> k + 1 < |plan| && plan[k + 1].kind == WRITE && plan[k + 1].name == r.name)
            && (r.kind == OPEN ==>
                  k + 1 < |plan| && plan[k + 1].kind in {READ, APPEND, LOCK, UNLOCK} && plan[k + 1].name == r.name)
  {
    PlanGood(reqs);
    PlanFromAttached(reqs, 0, []);
    assert InPlace(Plan(reqs), k);
  }

  /** Preservation: without what the pass made up, the plan is the input. */
  lemma PlanPreserves(reqs: seq<Req>)
    requires Commands(reqs)
    ensures Erase(Plan(reqs)) == reqs
  {
    PlanGood(reqs);
    assert reqs[..|reqs|] == reqs;
  }

  /** Balance: a file that was named ends removed and without a close if the last
      request about it is a REMOVE, and otherwise closed, exactly once. */
  lemma PlanBalanced(reqs: seq<Req>, f: Name)
    requires Commands(reqs)
    ensures var plan := Plan(reqs);
            match LastKind(reqs, f)
            case None => Closes(plan, f) == 0 && LifeOf(plan, f) == Shut
            case Some(REMOVE) => Closes(plan, f) == 0 && LifeOf(plan, f) == Gone
            case Some(_) => Closes(plan, f) == 1 && LifeOf(plan, f) == Shut
  {
    PlanGood(reqs);
    assert FileDone(reqs, |reqs|, Plan(reqs), f);
    assert reqs[..|reqs|] == reqs;
  }
}
