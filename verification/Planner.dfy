/** add_open_create_requests of src/source/client/client_parser.c: the pass that
    surrounds the user's requests with the opens and closes the server needs. */
module Planner {
  import opened Basics

  datatype Kind =
    | READ | READN | WRITE | APPEND | LOCK | UNLOCK | REMOVE
    | OPEN | OPEN_LOCK | CREATE_LOCK | CLOSE

  /** `name` is stringdata, None for NULL; `n` and `dir` ride along. */
  datatype Req = Req(kind: Kind, name: Option<Name>, n: int, dir: Option<Name>)

  /** A request the pass makes up for file f. */
  function Made(kind: Kind, f: Name): Req {
    Req(kind, Some(f), 0, None)
  }

  predicate IsMade(r: Req) {
    r.kind == OPEN || r.kind == OPEN_LOCK || r.kind == CREATE_LOCK || r.kind == CLOSE
  }

  predicate Opens(r: Req, f: Name) {
    (r.kind == OPEN || r.kind == OPEN_LOCK || r.kind == CREATE_LOCK) && r.name == Some(f)
  }

  predicate Removes(r: Req, f: Name) {
    r.kind == REMOVE && r.name == Some(f)
  }

  /** What the option parser hands over: user requests, all but READN about a file. */
  predicate Command(r: Req) {
    !IsMade(r) && (r.kind == READN <==> r.name.None?)
  }

  predicate Commands(reqs: seq<Req>) {
    forall i :: 0 <= i < |reqs| ==> Command(reqs[i])
  }

  predicate WantsOpen(kind: Kind) {
    kind == READ || kind == LOCK || kind == UNLOCK || kind == APPEND
  }

  predicate WantsClose(kind: Kind) {
    WantsOpen(kind) || kind == WRITE
  }

  /** The backward scan over the output: the latest open (-1) or removal (1) of f,
      or 0; closes are not looked at. */
  function ScanBack(out: seq<Req>, f: Name): int {
    if |out| == 0 then 0
    else
      var r := out[|out| - 1];
      if Removes(r, f) then 1 else if Opens(r, f) then -1 else ScanBack(out[..|out| - 1], f)
  }

  /** The forward scan over the input: is f named again from request i on? */
  predicate NamedFrom(reqs: seq<Req>, i: nat, f: Name) {
    exists j :: i <= j < |reqs| && reqs[j].name == Some(f)
  }

  /** What is put before request r. */
  function Prelude(out: seq<Req>, r: Req): seq<Req> {
    if r.name.None? then []
    else if WantsOpen(r.kind) then (if ScanBack(out, r.name.value) != -1 then [Made(OPEN, r.name.value)] else [])
    else if r.kind == WRITE then [Made(CREATE_LOCK, r.name.value)]
    else if r.kind == REMOVE then [Made(OPEN_LOCK, r.name.value)]
    else []
  }

  /** What is put after request i, `out` ending with it. */
  function Epilogue(reqs: seq<Req>, i: nat, out: seq<Req>): seq<Req>
    requires i < |reqs|
  {
    var r := reqs[i];
    if r.name.None? || !WantsClose(r.kind) || NamedFrom(reqs, i + 1, r.name.value) || ScanBack(out, r.name.value) != -1
    then [] else [Made(CLOSE, r.name.value)]
  }

  function Emit(reqs: seq<Req>, i: nat, out: seq<Req>): seq<Req>
    requires i < |reqs|
  {
    var upto := out + Prelude(out, reqs[i]) + [reqs[i]];
    upto + Epilogue(reqs, i, upto)
  }

  function PlanFrom(reqs: seq<Req>, i: nat, out: seq<Req>): seq<Req>
    requires i <= |reqs|
    decreases |reqs| - i
  {
    if i == |reqs| then out else PlanFrom(reqs, i + 1, Emit(reqs, i, out))
  }

  function Plan(reqs: seq<Req>): seq<Req> {
    PlanFrom(reqs, 0, [])
  }

  // ----------------------------------------------------------- the pass itself

  method InsertOpen(req: Req, out: seq<Req>) returns (out': seq<Req>)
    requires req.name.Some? && WantsOpen(req.kind)
    ensures out' == out + Prelude(out, req)
  {
    var insert := 0;
    var j := |out| - 1;
    assert out[..|out|] == out;
    while j >= 0 && insert == 0
      invariant -1 <= j < |out|
      invariant ScanBack(out, req.name.value) == if insert != 0 then insert else ScanBack(out[..j + 1], req.name.value)
      decreases j
    {
      assert out[..j + 1][..j] == out[..j];
      if out[j].kind == REMOVE && out[j].name == req.name { insert := 1; }
      if (out[j].kind == OPEN || out[j].kind == OPEN_LOCK || out[j].kind == CREATE_LOCK) && out[j].name == req.name {
        insert := -1;
      }
      j := j - 1;
    }
    out' := out;
    if insert != -1 {
      out' := out + [Made(OPEN, req.name.value)];
    }
  }

  method InsertClose(reqs: seq<Req>, i: nat, out: seq<Req>) returns (out': seq<Req>)
    requires i < |reqs| && reqs[i].name.Some? && WantsClose(reqs[i].kind)
    ensures out' == out + Epilogue(reqs, i, out)
  {
    var f := reqs[i].name.value;
    var insert := 0;
    var k := i + 1;
    while k < |reqs|
      invariant i < k <= |reqs|
      invariant insert == if exists j :: i + 1 <= j < k && reqs[j].name == Some(f) then 1 else 0
    {
      if reqs[k].name.Some? && reqs[k].name.value == f { insert := 1; }
      k := k + 1;
    }
    ghost var forward := insert;
    assert forward == 1 <==> NamedFrom(reqs, i + 1, f);
    var j := |out| - 1;
    assert out[..|out|] == out;
    while j >= 0 && insert == 0
      invariant -1 <= j < |out|
      invariant forward == 1 ==> insert == 1
      invariant forward == 0 ==> ScanBack(out, f) == if insert != 0 then insert else ScanBack(out[..j + 1], f)
      decreases j
    {
      assert out[..j + 1][..j] == out[..j];
      if out[j].kind == REMOVE && out[j].name == Some(f) { insert := 1; }
      if (out[j].kind == OPEN || out[j].kind == OPEN_LOCK || out[j].kind == CREATE_LOCK) && out[j].name == Some(f) {
        insert := -1;
      }
      j := j - 1;
    }
    out' := out;
    if insert == -1 {
      out' := out + [Made(CLOSE, f)];
    }
  }

  method AddOpenCreateRequests(reqs: seq<Req>) returns (out: seq<Req>)
    requires Commands(reqs)
    ensures out == Plan(reqs)
  {
    out := [];
    var i := 0;
    while i < |reqs|
      invariant 0 <= i <= |reqs| && PlanFrom(reqs, i, out) == Plan(reqs)
    {
      var req := reqs[i];
      assert Command(req);
      var next := out;
      if WantsOpen(req.kind) {
        next := InsertOpen(req, out);
      }
      if req.kind == WRITE {
        next := next + [Made(CREATE_LOCK, req.name.value)];
      } else if req.kind == REMOVE {
        next := next + [Made(OPEN_LOCK, req.name.value)];
      }
      assert next == out + Prelude(out, req);
      next := next + [req];
      ghost var upto := next;
      if WantsClose(req.kind) {
        next := InsertClose(reqs, i, next);
      }
      assert next == upto + Epilogue(reqs, i, upto);
      out := next;
      i := i + 1;
    }
  }
}
