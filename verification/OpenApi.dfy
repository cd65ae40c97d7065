/** The discovery document of contributed modules (pkg/starterapp/openapi.go and the
    contributed-module loop of pkg/starterapp/app.go): validation that normalises the
    declared operations in place, and the nested path and method document. */
module OpenApi {
  import opened Options
  import Paths
  import Text

  datatype Operation = Operation(
    operationID: string,
    verb: string,
    path: string,
    summary: string,
    description: string,
    tags: seq<string>,
    isPublic: bool,
    successStatus: int)

  datatype Fault =
    | UnsupportedMethod
    | InvalidPath
    | InvalidOperationID
    | DuplicateOperationID(owner: string)
    | SummaryRequired
    | InvalidSuccessStatus
    | DuplicateRoute(owner: string)

  // ---- one operation --------------------------------------------------------------------

  predicate Supported(m: string) {
    m == "GET" || m == "POST" || m == "PUT" || m == "PATCH" || m == "DELETE"
  }

  predicate PathChar(c: char) {
    c != '?' && c != '#' && c != ' ' && c != '\t' && c != '\r' && c != '\n'
  }

  predicate ValidPath(p: string) {
    && Paths.Rooted(p)
    && (forall i | 0 <= i < |p| :: PathChar(p[i]))
    && Paths.Clean(p) == p
  }

  predicate Letter(c: char) {
    'A' <= c <= 'Z' || 'a' <= c <= 'z'
  }

  predicate OperationIDShape(id: string) {
    && id != "" && Letter(id[0])
    && forall i | 0 < i < |id| :: Letter(id[i]) || '0' <= id[i] <= '9' || id[i] == '.' || id[i] == '_' || id[i] == '-'
  }

  function Trimmed(op: Operation): Operation {
    op.(verb := Text.ToUpper(Text.TrimSpace(op.verb)),
        path := Text.TrimSpace(op.path),
        operationID := Text.TrimSpace(op.operationID),
        summary := Text.TrimSpace(op.summary))
  }

  /** The form the document shows: trimmed, with its success status filled in. */
  function Completed(op: Operation): Operation {
    var t := Trimmed(op);
    if t.successStatus != 0 then t else t.(successStatus := if t.verb == "POST" then 201 else 200)
  }

  function CompletedAll(ops: seq<Operation>): seq<Operation> {
    seq(|ops|, i requires 0 <= i < |ops| => Completed(ops[i]))
  }

  predicate WellDeclared(op: Operation) {
    && Supported(op.verb)
    && ValidPath(op.path)
    && OperationIDShape(op.operationID)
    && op.summary != ""
    && 100 <= op.successStatus <= 599
  }

  function RouteKey(op: Operation): string {
    op.verb + " " + op.path
  }

  // ---- many operations ------------------------------------------------------------------

  function Routes(ops: seq<Operation>): set<string> {
    set i | 0 <= i < |ops| :: RouteKey(ops[i])
  }

  function IDs(ops: seq<Operation>): set<string> {
    set i | 0 <= i < |ops| :: ops[i].operationID
  }

  /** Two operations that claim one route or one operation ID. */
  predicate Clash(a: Operation, b: Operation) {
    RouteKey(a) == RouteKey(b) || a.operationID == b.operationID
  }

  predicate Admissible(ops: seq<Operation>) {
    && (forall i | 0 <= i < |ops| :: WellDeclared(ops[i]))
    && (forall i, j | 0 <= i < j < |ops| :: !Clash(ops[i], ops[j]))
  }

  lemma PrefixAdmissible(ops: seq<Operation>, more: seq<Operation>)
    requires Admissible(ops + more)
    ensures Admissible(ops)
  {
    hide WellDeclared, Clash;
    var all := ops + more;
    assert forall i | 0 <= i < |ops| :: ops[i] == all[i];
  }

  /** Adding one operation: what the field checks and the two lookups decide together. */
  lemma AdmissibleGrows(ops: seq<Operation>, op: Operation)
    ensures Admissible(ops + [op]) <==>
              Admissible(ops) && WellDeclared(op) && RouteKey(op) !in Routes(ops) && op.operationID !in IDs(ops)
  {
    hide WellDeclared, RouteKey;
    var all := ops + [op];
    assert all[|ops|] == op && forall i | 0 <= i < |ops| :: ops[i] == all[i];
    if Admissible(all) {
      assert forall i | 0 <= i < |ops| :: !Clash(all[i], all[|ops|]);
    }
  }

  /** Normalising what is already normalised changes nothing. */
  lemma CompletedTwice(op: Operation)
    ensures Completed(Completed(op)) == Completed(op)
  {
    assert Trimmed(Trimmed(op)) == Trimmed(op) by {
      UpperTrimTwice(op.verb);
      Text.TrimTwice(op.path);
      Text.TrimTwice(op.operationID);
      Text.TrimTwice(op.summary);
      hide Text.TrimSpace, Text.ToUpper;
    }
    hide Text.TrimSpace, Text.ToUpper;
    assert Trimmed(Completed(op)) == Completed(op);
  }

  lemma UpperTrimTwice(s: string)
    ensures var t := Text.ToUpper(Text.TrimSpace(s)); Text.ToUpper(Text.TrimSpace(t)) == t
  {
    var m := Text.TrimSpace(s);
    var t := Text.ToUpper(m);
    Text.TrimTwice(s);
    assert Text.Trimmed(t);
    Text.TrimmedFixed(t);
    assert Text.ToUpper(t) == t;
  }

  lemma CompletedAllTwice(ops: seq<Operation>)
    ensures CompletedAll(CompletedAll(ops)) == CompletedAll(ops)
  {
    forall i | 0 <= i < |ops| ensures Completed(Completed(ops[i])) == Completed(ops[i]) {
      CompletedTwice(ops[i]);
    }
  }

  /** The fault one completed operation is refused for, given what is claimed already. */
  function FaultOf(op: Operation, routes: map<string, string>, ids: map<string, string>): (fault: Option<Fault>)
    ensures fault.None? <==> WellDeclared(op) && RouteKey(op) !in routes && op.operationID !in ids
  {
    if !Supported(op.verb) then Some(UnsupportedMethod)
    else if !ValidPath(op.path) then Some(InvalidPath)
    else if !OperationIDShape(op.operationID) then Some(InvalidOperationID)
    else if op.operationID in ids then Some(DuplicateOperationID(ids[op.operationID]))
    else if op.summary == "" then Some(SummaryRequired)
    else if op.successStatus < 100 || 599 < op.successStatus then Some(InvalidSuccessStatus)
    else if RouteKey(op) in routes then Some(DuplicateRoute(routes[RouteKey(op)]))
    else None
  }

  /** The table m once owner has claimed the keys. */
  function Claimed(m: map<string, string>, keys: set<string>, owner: string): map<string, string> {
    m + map k | k in keys :: owner
  }

  // ---- contributed modules --------------------------------------------------------------

  /** What a contributed module's constructor returns; the operations are a slice that
      validation rewrites, and two modules may share one. */
  datatype Contribution = Failed | Built(id: string, routed: bool, openAPI: array<Operation>)

  /** The same as a value: what a module declares. */
  datatype Declaration = BuildFailed | Declares(id: string, routed: bool, operations: seq<Operation>)

  function Declared(c: Contribution): Declaration
    reads if c.Built? then {c.openAPI} else {}
  {
    match c
    case Failed => BuildFailed
    case Built(id, routed, openAPI) => Declares(id, routed, openAPI[..])
  }

  /** Declarations that ask for the same once normalised. */
  predicate SameDemand(d: Declaration, e: Declaration) {
    && (d.Declares? <==> e.Declares?)
    && (d.Declares? ==>
          && d.id == e.id && d.routed == e.routed
          && CompletedAll(d.operations) == CompletedAll(e.operations))
  }

  function AllOperations(ds: seq<Declaration>): seq<Operation> {
    if ds == [] then []
    else
      var last := ds[|ds| - 1];
      AllOperations(ds[..|ds| - 1]) + if last.Declares? then CompletedAll(last.operations) else []
  }

  predicate NamesModule(d: Declaration, builtins: set<string>) {
    d.Declares? && d.id != "" && d.id !in builtins && d.routed
  }

  /** What a set of contributed modules must satisfy to be accepted, seen from outside. */
  predicate Admitted(ds: seq<Declaration>, builtins: set<string>) {
    && (forall i | 0 <= i < |ds| :: NamesModule(ds[i], builtins))
    && (forall i, j | 0 <= i < j < |ds| :: ds[i].id != ds[j].id)
    && Admissible(AllOperations(ds))
  }

  function ModuleIDs(ds: seq<Declaration>): set<string> {
    set i | 0 <= i < |ds| && ds[i].Declares? :: ds[i].id
  }

  /** One more module is accepted when it names itself freshly and its operations fit. */
  lemma AdmittedGrows(ds: seq<Declaration>, d: Declaration, builtins: set<string>)
    ensures Admitted(ds + [d], builtins) <==>
              && Admitted(ds, builtins) && NamesModule(d, builtins + ModuleIDs(ds))
              && Admissible(AllOperations(ds) + CompletedAll(d.operations))
  {
    hide Admissible, AllOperations;
    var all := ds + [d];
    assert all[|ds|] == d && forall i | 0 <= i < |ds| :: ds[i] == all[i];
    if d.Declares? {
      AllOperationsGrow(ds, d);
      if Admissible(AllOperations(ds) + CompletedAll(d.operations)) {
        PrefixAdmissible(AllOperations(ds), CompletedAll(d.operations));
      }
    }
  }

  lemma NothingAdmitted(builtins: set<string>)
    ensures Admitted([], builtins) && AllOperations([]) == [] && ModuleIDs([]) == {}
  {
  }

  lemma SameDemandJoins(d: Declaration, e: Declaration, taken: set<string>)
    requires SameDemand(d, e)
    ensures NamesModule(d, taken) <==> NamesModule(e, taken)
    ensures d.Declares? ==> CompletedAll(d.operations) == CompletedAll(e.operations)
  {
  }

  lemma ModuleIDsGrow(ds: seq<Declaration>, d: Declaration)
    ensures ModuleIDs(ds + [d]) == ModuleIDs(ds) + if d.Declares? then {d.id} else {}
  {
    var all := ds + [d];
    assert all[|ds|] == d && forall i | 0 <= i < |ds| :: ds[i] == all[i];
  }

  lemma AllOperationsGrow(ds: seq<Declaration>, d: Declaration)
    ensures AllOperations(ds + [d]) == AllOperations(ds) + if d.Declares? then CompletedAll(d.operations) else []
  {
    assert (ds + [d])[..|ds|] == ds;
  }

  lemma {:induction false} PrefixAdmitted(ds: seq<Declaration>, n: nat, builtins: set<string>)
    requires n <= |ds| && Admitted(ds, builtins)
    ensures Admitted(ds[..n], builtins)
    decreases |ds|
  {
    if n < |ds| {
      var most, d := ds[..|ds| - 1], ds[|ds| - 1];
      assert ds == most + [d];
      AdmittedGrows(most, d, builtins);
      PrefixAdmitted(most, n, builtins);
      assert most[..n] == ds[..n];
    } else {
      assert ds[..n] == ds;
    }
  }

  /** The catalogue a boot builds up: the module names taken, the operations accepted and
      who claimed which route and which operation ID. */
  class Catalog {
    var taken: set<string>
    var operations: seq<Operation>
    var routes: map<string, string>
    var operationIDs: map<string, string>

    ghost predicate Valid()
      reads this
    {
      && Admissible(operations)
      && routes.Keys == Routes(operations)
      && operationIDs.Keys == IDs(operations)
    }

    constructor (builtins: set<string>)
      ensures Valid() && taken == builtins && operations == []
    {
      taken := builtins;
      operations, routes, operationIDs := [], map[], map[];
    }

    /** The body of the validation loop: one operation, rewritten where it stands. */
    method ValidateOperation(moduleID: string, ops: array<Operation>, at: nat) returns (fault: Option<Fault>)
      requires at < ops.Length
      modifies `routes, `operationIDs, ops
      ensures fault == FaultOf(Completed(old(ops[at])), old(routes), old(operationIDs))
      ensures fault.None? ==>
                && ops[at] == Completed(old(ops[at]))
                && routes == old(routes)[RouteKey(ops[at]) := moduleID]
                && operationIDs == old(operationIDs)[ops[at].operationID := moduleID]
      ensures forall k | 0 <= k < ops.Length && k != at :: ops[k] == old(ops[k])
    {
      hide Supported, ValidPath, OperationIDShape, RouteKey, Text.ToUpper, Text.TrimSpace;
      ops[at] := ops[at].(verb := Text.ToUpper(Text.TrimSpace(ops[at].verb)));
      ops[at] := ops[at].(path := Text.TrimSpace(ops[at].path));
      ops[at] := ops[at].(operationID := Text.TrimSpace(ops[at].operationID));
      ops[at] := ops[at].(summary := Text.TrimSpace(ops[at].summary));
      var op := ops[at];
      if !Supported(op.verb) { return Some(UnsupportedMethod); }
      if !ValidPath(op.path) { return Some(InvalidPath); }
      if !OperationIDShape(op.operationID) { return Some(InvalidOperationID); }
      if op.operationID in operationIDs { return Some(DuplicateOperationID(operationIDs[op.operationID])); }
      operationIDs := operationIDs[op.operationID := moduleID];
      if op.summary == "" { return Some(SummaryRequired); }
      if op.successStatus == 0 {
        op := op.(successStatus := if op.verb == "POST" then 201 else 200);
        ops[at] := op;
      }
      if op.successStatus < 100 || 599 < op.successStatus { return Some(InvalidSuccessStatus); }
      var key := RouteKey(op);
      if key in routes { return Some(DuplicateRoute(routes[key])); }
      routes := routes[key := moduleID];
      return None;
    }

    method ValidateOperations(moduleID: string, ops: array<Operation>) returns (fault: Option<Fault>, at: nat)
      requires Valid()
      modifies `routes, `operationIDs, ops
      ensures fault.None? <==> Admissible(operations + CompletedAll(old(ops[..])))
      ensures fault.None? ==> ops[..] == CompletedAll(old(ops[..]))
      ensures fault.None? ==>
                && routes == Claimed(old(routes), Routes(ops[..]), moduleID)
                && operationIDs == Claimed(old(operationIDs), IDs(ops[..]), moduleID)
      ensures fault.Some? ==>
                var done := CompletedAll(old(ops[..]));
                && at < |done| && Admissible(operations + done[..at])
                && fault == FaultOf(done[at], Claimed(old(routes), Routes(done[..at]), moduleID),
                                    Claimed(old(operationIDs), IDs(done[..at]), moduleID))
    {
      hide FaultOf, Admissible, RouteKey, Completed, Claimed, Routes, IDs;
      ghost var done := CompletedAll(ops[..]);
      at := 0;
      NothingClaimed(operations, done, routes, operationIDs, moduleID);
      while at < ops.Length
        invariant at <= ops.Length == |done|
        invariant forall k | 0 <= k < at :: ops[k] == done[k]
        invariant forall k | at <= k < ops.Length :: ops[k] == old(ops[k])
        invariant Admissible(operations + done[..at])
        invariant routes == Claimed(old(routes), Routes(done[..at]), moduleID)
        invariant operationIDs == Claimed(old(operationIDs), IDs(done[..at]), moduleID)
      {
        StepDecides(operations, done, at, old(routes), old(operationIDs), moduleID);
        StepClaims(done, at, old(routes), old(operationIDs), moduleID);
        fault := ValidateOperation(moduleID, ops, at);
        if fault.Some? { return; }
        at := at + 1;
      }
      assert done[..at] == done && ops[..] == done;
      fault := None;
    }

    method Contribute(c: Contribution) returns (ok: bool)
      requires Valid()
      modifies this, if c.Built? then {c.openAPI} else {}
      ensures ok <==> NamesModule(old(Declared(c)), old(taken))
                      && Admissible(old(operations) + CompletedAll(old(Declared(c)).operations))
      ensures ok ==>
                && Valid()
                && taken == old(taken) + {c.id}
                && operations == old(operations) + CompletedAll(old(Declared(c)).operations)
                && c.openAPI[..] == CompletedAll(old(Declared(c)).operations)
    {
      hide Admissible, Routes, IDs, CompletedAll;
      if c.Failed? || c.id == "" || c.id in taken || !c.routed {
        return false;
      }
      var fault, at := ValidateOperations(c.id, c.openAPI);
      if fault.Some? {
        return false;
      }
      taken := taken + {c.id};
      KeysJoin(operations, c.openAPI[..]);
      operations := operations + c.openAPI[..];
      return true;
    }

    /** The contributed-module loop of a boot. */
    method ContributeAll(cs: seq<Contribution>, ghost ds: seq<Declaration>) returns (ok: bool)
      requires Valid() && operations == []
      requires |ds| == |cs| && forall i | 0 <= i < |cs| :: ds[i] == Declared(cs[i])
      modifies this, set i | 0 <= i < |cs| && cs[i].Built? :: cs[i].openAPI
      ensures ok <==> Admitted(ds, old(taken))
      ensures ok ==> Valid() && operations == AllOperations(ds) && taken == old(taken) + ModuleIDs(ds)
    {
      hide Admitted, AllOperations, Admissible, ModuleIDs, Routes, IDs;
      ghost var builtins := taken;
      NothingAdmitted(builtins);
      assert ds[..0] == [];
      for i := 0 to |cs|
        invariant Valid()
        invariant Admitted(ds[..i], builtins)
        invariant operations == AllOperations(ds[..i])
        invariant taken == builtins + ModuleIDs(ds[..i])
        invariant forall j | i <= j < |cs| :: SameDemand(Declared(cs[j]), ds[j])
      {
        assert ds[..i + 1] == ds[..i] + [ds[i]];
        assert SameDemand(Declared(cs[i]), ds[i]);
        AdmittedGrows(ds[..i], ds[i], builtins);
        SameDemandJoins(Declared(cs[i]), ds[i], taken);
        label Before:
        ok := Contribute(cs[i]);
        if !ok {
          if Admitted(ds, builtins) {
            PrefixAdmitted(ds, i + 1, builtins);
          }
          return;
        }
        AllOperationsGrow(ds[..i], ds[i]);
        ModuleIDsGrow(ds[..i], ds[i]);
        CompletedAllTwice(ds[i].operations);
        forall j | i < j < |cs| ensures SameDemand(Declared(cs[j]), ds[j]) {
          assert old@Before(SameDemand(Declared(cs[j]), ds[j]));
          if cs[j].Built? && cs[j].openAPI == cs[i].openAPI {
          }
        }
      }
      assert ds[..|cs|] == ds;
      ok := true;
    }
  }

  lemma NothingClaimed(base: seq<Operation>, done: seq<Operation>,
                       routes: map<string, string>, ids: map<string, string>, owner: string)
    ensures base + done[..0] == base
    ensures Claimed(routes, Routes(done[..0]), owner) == routes
    ensures Claimed(ids, IDs(done[..0]), owner) == ids
  {
  }

  /** With the first at operations claimed, the next one is free of faults exactly when the
      list up to and with it is admissible. */
  lemma StepDecides(base: seq<Operation>, done: seq<Operation>, at: nat,
                    routes: map<string, string>, ids: map<string, string>, owner: string)
    requires at < |done|
    requires routes.Keys == Routes(base) && ids.Keys == IDs(base)
    requires Admissible(base + done[..at])
    ensures var fault := FaultOf(done[at], Claimed(routes, Routes(done[..at]), owner),
              Claimed(ids, IDs(done[..at]), owner));
            && (fault.None? <==> Admissible(base + done[..at + 1]))
            && (fault.Some? ==> !Admissible(base + done))
  {
    hide FaultOf, WellDeclared, RouteKey, Admissible, Routes, IDs;
    var here := base + done[..at];
    assert base + done[..at + 1] == here + [done[at]];
    assert base + done == base + done[..at + 1] + done[at + 1..];
    AdmissibleGrows(here, done[at]);
    KeysJoin(base, done[..at]);
    if Admissible(base + done) {
      PrefixAdmissible(base + done[..at + 1], done[at + 1..]);
    }
  }

  lemma StepClaims(done: seq<Operation>, at: nat, routes: map<string, string>, ids: map<string, string>, owner: string)
    requires at < |done|
    ensures Claimed(routes, Routes(done[..at + 1]), owner)
              == Claimed(routes, Routes(done[..at]), owner)[RouteKey(done[at]) := owner]
    ensures Claimed(ids, IDs(done[..at + 1]), owner)
              == Claimed(ids, IDs(done[..at]), owner)[done[at].operationID := owner]
  {
    hide RouteKey, Routes, IDs, Claimed;
    assert done[..at + 1] == done[..at] + [done[at]];
    KeysJoin(done[..at], [done[at]]);
    OneKey(done[at]);
    ClaimedGrows(routes, Routes(done[..at]), RouteKey(done[at]), owner);
    ClaimedGrows(ids, IDs(done[..at]), done[at].operationID, owner);
  }

  lemma ClaimedGrows(m: map<string, string>, keys: set<string>, key: string, owner: string)
    ensures Claimed(m, keys + {key}, owner) == Claimed(m, keys, owner)[key := owner]
  {
  }

  lemma OneKey(op: Operation)
    ensures Routes([op]) == {RouteKey(op)} && IDs([op]) == {op.operationID}
  {
    assert [op][0] == op;
  }

  lemma KeysJoin(a: seq<Operation>, b: seq<Operation>)
    ensures Routes(a + b) == Routes(a) + Routes(b)
    ensures IDs(a + b) == IDs(a) + IDs(b)
  {
    hide RouteKey;
    var ab := a + b;
    assert forall i | 0 <= i < |a| :: a[i] == ab[i];
    assert forall i | 0 <= i < |b| :: b[i] == ab[|a| + i];
    forall k | k in Routes(ab) ensures k in Routes(a) + Routes(b) {
      var i :| 0 <= i < |ab| && RouteKey(ab[i]) == k;
      assert if i < |a| then ab[i] == a[i] else ab[i] == b[i - |a|];
    }
    forall k | k in IDs(ab) ensures k in IDs(a) + IDs(b) {
      var i :| 0 <= i < |ab| && ab[i].operationID == k;
      assert if i < |a| then ab[i] == a[i] else ab[i] == b[i - |a|];
    }
  }

  // ---- the document ---------------------------------------------------------------------

  /** One operation as the document shows it; the response table has the one success status. */
  datatype Entry = Entry(
    operationID: string, summary: string, description: string, tags: seq<string>, secured: bool, successStatus: int)

  type PathTable = map<string, map<string, Entry>>

  function EntryOf(op: Operation): Entry {
    Entry(op.operationID, op.summary, Text.TrimSpace(op.description), op.tags, !op.isPublic, op.successStatus)
  }

  /** Where an operation goes: its path and its method in lower case. */
  function Slot(op: Operation): (string, string) {
    (op.path, Text.ToLower(op.verb))
  }

  predicate Filled(doc: PathTable, slot: (string, string)) {
    slot.0 in doc && slot.1 in doc[slot.0]
  }

  function At(doc: PathTable, slot: (string, string)): Entry
    requires Filled(doc, slot)
  {
    doc[slot.0][slot.1]
  }

  /** The (path, method) pairs of a document. */
  function FilledSlots(doc: PathTable): set<(string, string)> {
    set path, m | path in doc && m in doc[path] :: (path, m)
  }

  predicate Named(ops: seq<Operation>, slot: (string, string)) {
    exists j | 0 <= j < |ops| :: Slot(ops[j]) == slot
  }

  /** The operation whose entry stands in a slot: the last one that goes there. */
  function LastAt(ops: seq<Operation>, slot: (string, string)): (i: nat)
    requires Named(ops, slot)
    ensures i < |ops| && Slot(ops[i]) == slot
    ensures forall j | i < j < |ops| :: Slot(ops[j]) != slot
  {
    if Slot(ops[|ops| - 1]) == slot then |ops| - 1 else LastAt(ops[..|ops| - 1], slot)
  }

  predicate RendersAt(doc: PathTable, ops: seq<Operation>, slot: (string, string)) {
    && (Filled(doc, slot) <==> Named(ops, slot))
    && (Filled(doc, slot) ==> At(doc, slot) == EntryOf(ops[LastAt(ops, slot)]))
  }

  /** The document holds, slot by slot, the last operation that goes there, and nothing else. */
  ghost predicate Renders(doc: PathTable, ops: seq<Operation>) {
    && (forall slot :: RendersAt(doc, ops, slot))
    && (forall path | path in doc :: doc[path] != map[])
  }

  method Render(ops: seq<Operation>) returns (doc: PathTable)
    ensures Renders(doc, ops)
  {
    doc := map[];
    for i := 0 to |ops|
      invariant Renders(doc, ops[..i])
    {
      var op := ops[i];
      ghost var before := doc;
      if op.path !in doc {
        doc := doc[op.path := map[]];
      }
      doc := doc[op.path := doc[op.path][Text.ToLower(op.verb) := EntryOf(op)]];
      RenderStep(before, doc, ops[..i], op);
      assert ops[..i + 1] == ops[..i] + [op];
    }
    assert ops[..|ops|] == ops;
  }

  lemma RenderStep(doc: PathTable, doc': PathTable, ops: seq<Operation>, op: Operation)
    requires Renders(doc, ops)
    requires var slot := Slot(op);
             doc' == doc[slot.0 := (if slot.0 in doc then doc[slot.0] else map[])[slot.1 := EntryOf(op)]]
    ensures Renders(doc', ops + [op])
  {
    forall slot ensures RendersAt(doc', ops + [op], slot) {
      assert RendersAt(doc, ops, slot);
      NamedGrows(ops, op, slot);
      hide Slot, EntryOf, Named, LastAt;
    }
    hide RendersAt;
    forall path | path in doc' ensures doc'[path] != map[] {
      if path == Slot(op).0 {
        assert Slot(op).1 in doc'[path];
      }
    }
  }

  lemma NamedGrows(ops: seq<Operation>, op: Operation, slot: (string, string))
    ensures Named(ops + [op], slot) <==> Named(ops, slot) || slot == Slot(op)
    ensures Named(ops + [op], slot) ==>
              (ops + [op])[LastAt(ops + [op], slot)] == if slot == Slot(op) then op else ops[LastAt(ops, slot)]
  {
    hide Slot;
    var all := ops + [op];
    assert all[|ops|] == op && all[..|ops|] == ops && forall i | 0 <= i < |ops| :: ops[i] == all[i];
    if Named(ops, slot) {
      assert Slot(all[LastAt(ops, slot)]) == slot;
    }
  }

  predicate DistinctSlots(ops: seq<Operation>) {
    forall i, j | 0 <= i < j < |ops| :: Slot(ops[i]) != Slot(ops[j])
  }

  function SlotsOf(ops: seq<Operation>): set<(string, string)> {
    set i | 0 <= i < |ops| :: Slot(ops[i])
  }

  lemma SlotsGrow(ops: seq<Operation>, op: Operation)
    ensures SlotsOf(ops + [op]) == SlotsOf(ops) + {Slot(op)}
    ensures DistinctSlots(ops + [op]) <==> DistinctSlots(ops) && Slot(op) !in SlotsOf(ops)
  {
    hide Slot;
    var all := ops + [op];
    assert all[|ops|] == op && forall i | 0 <= i < |ops| :: ops[i] == all[i];
  }

  lemma {:induction false} SlotsCount(ops: seq<Operation>)
    ensures |SlotsOf(ops)| <= |ops|
    ensures |SlotsOf(ops)| == |ops| <==> DistinctSlots(ops)
  {
    if ops != [] {
      var most, op := ops[..|ops| - 1], ops[|ops| - 1];
      SlotsCount(most);
      SlotsGrow(most, op);
      assert ops == most + [op];
      hide Slot, DistinctSlots, SlotsOf;
    }
  }

  /** A rendered document loses no operation exactly when no two go to one slot. */
  lemma RenderedIsLossless(doc: PathTable, ops: seq<Operation>)
    requires Renders(doc, ops)
    ensures |FilledSlots(doc)| <= |ops|
    ensures |FilledSlots(doc)| == |ops| <==> DistinctSlots(ops)
    ensures DistinctSlots(ops) ==>
              forall i | 0 <= i < |ops| :: Filled(doc, Slot(ops[i])) && At(doc, Slot(ops[i])) == EntryOf(ops[i])
  {
    hide Slot, EntryOf;
    assert FilledSlots(doc) == SlotsOf(ops) by {
      forall slot ensures slot in FilledSlots(doc) <==> slot in SlotsOf(ops) {
        assert slot in FilledSlots(doc) <==> Filled(doc, slot);
        assert RendersAt(doc, ops, slot);
      }
    }
    SlotsCount(ops);
    if DistinctSlots(ops) {
      forall i | 0 <= i < |ops| ensures Filled(doc, Slot(ops[i])) && At(doc, Slot(ops[i])) == EntryOf(ops[i]) {
        var slot := Slot(ops[i]);
        assert RendersAt(doc, ops, slot) && Named(ops, slot);
        assert LastAt(ops, slot) == i;
      }
    }
  }

  // ---- conservation ---------------------------------------------------------------------

  lemma SupportedIsUpper(m: string)
    requires Supported(m)
    ensures forall i | 0 <= i < |m| :: 'A' <= m[i] <= 'Z'
  {
  }

  lemma LowerInjective(a: string, b: string)
    requires forall i | 0 <= i < |a| :: 'A' <= a[i] <= 'Z'
    requires forall i | 0 <= i < |b| :: 'A' <= b[i] <= 'Z'
    requires Text.ToLower(a) == Text.ToLower(b)
    ensures a == b
  {
    assert |a| == |Text.ToLower(a)| == |b|;
    forall i | 0 <= i < |a| ensures a[i] == b[i] {
      assert Text.ToLower(a)[i] == Text.ToLower(b)[i];
    }
  }

  lemma CutAtSpace(m: string, p: string, n: string, q: string)
    requires ' ' !in m && ' ' !in n && m + " " + p == n + " " + q
    ensures m == n && p == q
  {
    var key := m + " " + p;
    assert key[|m|] == ' ' && key[|n|] == ' ';
    assert forall i | 0 <= i < |m| :: key[i] == m[i];
    assert forall i | 0 <= i < |n| :: key[i] == n[i];
    assert |m| == |n|;
    assert m == key[..|m|] == n;
    assert p == key[|m| + 1..] == q;
  }

  /** The text that routes are compared by separates exactly the slots of the document. */
  lemma RouteIsSlot(a: Operation, b: Operation)
    requires Supported(a.verb) && Supported(b.verb)
    ensures RouteKey(a) == RouteKey(b) <==> Slot(a) == Slot(b)
  {
    SupportedIsUpper(a.verb);
    SupportedIsUpper(b.verb);
    hide Supported;
    if Slot(a) == Slot(b) {
      LowerInjective(a.verb, b.verb);
    }
    if RouteKey(a) == RouteKey(b) {
      CutAtSpace(a.verb, a.path, b.verb, b.path);
    }
  }

  lemma AdmissibleSlots(ops: seq<Operation>)
    requires Admissible(ops)
    ensures DistinctSlots(ops)
  {
    forall i, j | 0 <= i < j < |ops| ensures Slot(ops[i]) != Slot(ops[j]) {
      assert WellDeclared(ops[i]) && WellDeclared(ops[j]) && !Clash(ops[i], ops[j]);
      RouteIsSlot(ops[i], ops[j]);
      hide Supported, ValidPath, OperationIDShape, Slot, RouteKey;
    }
  }

  lemma IDsAppearOnce(doc: PathTable, ops: seq<Operation>, s: (string, string), t: (string, string))
    requires Admissible(ops) && Renders(doc, ops)
    requires Filled(doc, s) && Filled(doc, t) && At(doc, s).operationID == At(doc, t).operationID
    ensures s == t
  {
    hide WellDeclared, Slot, RouteKey, Named, LastAt, Filled;
    assert RendersAt(doc, ops, s) && RendersAt(doc, ops, t);
    var i, j := LastAt(ops, s), LastAt(ops, t);
    assert i < j ==> !Clash(ops[i], ops[j]);
    assert j < i ==> !Clash(ops[j], ops[i]);
  }

  function Count(ds: seq<Declaration>): nat {
    if ds == [] then 0
    else Count(ds[..|ds| - 1]) + if ds[|ds| - 1].Declares? then |ds[|ds| - 1].operations| else 0
  }

  lemma {:induction false} EveryOperationIsThere(ds: seq<Declaration>)
    ensures |AllOperations(ds)| == Count(ds)
    ensures forall i, k | 0 <= i < |ds| && ds[i].Declares? && 0 <= k < |ds[i].operations| ::
              Completed(ds[i].operations[k]) in AllOperations(ds)
  {
    hide Completed;
    if ds != [] {
      var most, d := ds[..|ds| - 1], ds[|ds| - 1];
      EveryOperationIsThere(most);
      assert forall i | 0 <= i < |most| :: most[i] == ds[i];
      forall k | d.Declares? && 0 <= k < |d.operations| ensures Completed(d.operations[k]) in AllOperations(ds) {
        assert CompletedAll(d.operations)[k] == Completed(d.operations[k]);
        assert CompletedAll(d.operations)[k] in AllOperations(ds);
      }
    }
  }

  /** For every accepted set of contributed modules the document has exactly one entry for
      each declared operation, in the normalised form, and every operation ID once. */
  lemma Conservation(ds: seq<Declaration>, builtins: set<string>, doc: PathTable)
    requires Admitted(ds, builtins) && Renders(doc, AllOperations(ds))
    ensures |FilledSlots(doc)| == Count(ds)
    ensures forall i, k | 0 <= i < |ds| && 0 <= k < |ds[i].operations| ::
              var op := Completed(ds[i].operations[k]);
              Filled(doc, Slot(op)) && At(doc, Slot(op)) == EntryOf(op)
    ensures forall s, t | Filled(doc, s) && Filled(doc, t) && At(doc, s).operationID == At(doc, t).operationID :: s == t
  {
    hide *;
    var ops := AllOperations(ds);
    AdmittedIsAdmissible(ds, builtins);
    AdmissibleSlots(ops);
    RenderedIsLossless(doc, ops);
    EveryOperationIsThere(ds);
    forall i, k | 0 <= i < |ds| && 0 <= k < |ds[i].operations|
      ensures var op := Completed(ds[i].operations[k]);
              Filled(doc, Slot(op)) && At(doc, Slot(op)) == EntryOf(op)
    {
      assert Completed(ds[i].operations[k]) in ops;
    }
    forall s, t | Filled(doc, s) && Filled(doc, t) && At(doc, s).operationID == At(doc, t).operationID
      ensures s == t
    {
      IDsAppearOnce(doc, ops, s, t);
    }
  }

  lemma AdmittedIsAdmissible(ds: seq<Declaration>, builtins: set<string>)
    requires Admitted(ds, builtins)
    ensures Admissible(AllOperations(ds)) && forall i | 0 <= i < |ds| :: ds[i].Declares?
  {
    hide Admissible, AllOperations;
    assert forall i | 0 <= i < |ds| :: NamesModule(ds[i], builtins);
  }

  // ---- in terms of what was declared ----------------------------------------------------

  /** Where a declared operation goes, and how it is shown there. */
  function DeclaredSlot(op: Operation): (string, string) {
    (Text.TrimSpace(op.path), Text.ToLower(Text.TrimSpace(op.verb)))
  }

  predicate ShowsDeclared(e: Entry, op: Operation) {
    && e.operationID == Text.TrimSpace(op.operationID) && e.summary == Text.TrimSpace(op.summary)
    && e.description == Text.TrimSpace(op.description) && e.tags == op.tags
    && (e.secured <==> !op.isPublic)
    && (op.successStatus != 0 ==> e.successStatus == op.successStatus)
    && (op.successStatus == 0 ==> e.successStatus == if Text.ToLower(Text.TrimSpace(op.verb)) == "post" then 201
        else 200)
  }

  lemma LowerOfUpper(s: string)
    ensures Text.ToLower(Text.ToUpper(s)) == Text.ToLower(s)
    ensures Text.ToUpper(Text.ToLower(s)) == Text.ToUpper(s)
  {
  }

  lemma UpperIsLower(a: string, b: string)
    ensures Text.ToUpper(a) == Text.ToUpper(b) <==> Text.ToLower(a) == Text.ToLower(b)
  {
    LowerOfUpper(a);
    LowerOfUpper(b);
  }

  lemma Methods()
    ensures Text.ToUpper("get") == "GET" && Text.ToUpper("post") == "POST" && Text.ToUpper("put") == "PUT"
    ensures Text.ToUpper("patch") == "PATCH" && Text.ToUpper("delete") == "DELETE"
    ensures Text.ToLower("get") == "get" && Text.ToLower("post") == "post" && Text.ToLower("put") == "put"
    ensures Text.ToLower("patch") == "patch" && Text.ToLower("delete") == "delete"
  {
  }

  lemma UpperMethod(s: string, lower: string)
    requires Text.ToLower(lower) == lower
    ensures Text.ToUpper(s) == Text.ToUpper(lower) <==> Text.ToLower(s) == lower
  {
    UpperIsLower(s, lower);
  }

  lemma SupportedMeans(s: string)
    ensures Supported(Text.ToUpper(s)) <==> Text.ToLower(s) in {"get", "post", "put", "patch", "delete"}
    ensures Text.ToUpper(s) == "POST" <==> Text.ToLower(s) == "post"
  {
    Methods();
    hide Text.ToUpper, Text.ToLower;
    UpperMethod(s, "get");
    UpperMethod(s, "post");
    UpperMethod(s, "put");
    UpperMethod(s, "patch");
    UpperMethod(s, "delete");
  }

  lemma EntryShowsDeclared(op: Operation)
    ensures Slot(Completed(op)) == DeclaredSlot(op) && ShowsDeclared(EntryOf(Completed(op)), op)
  {
    SupportedMeans(Text.TrimSpace(op.verb));
    LowerOfUpper(Text.TrimSpace(op.verb));
    hide Text.TrimSpace, Text.ToUpper, Text.ToLower;
  }

  /** For every accepted set of modules each operation stands where it was declared, with its
      own texts, status and protection: only public ones are shown as open. */
  lemma EveryDeclarationIsShown(ds: seq<Declaration>, builtins: set<string>, doc: PathTable, i: nat, k: nat)
    requires Admitted(ds, builtins) && Renders(doc, AllOperations(ds))
    requires i < |ds| && ds[i].Declares? && k < |ds[i].operations|
    ensures var op := ds[i].operations[k];
            Filled(doc, DeclaredSlot(op)) && ShowsDeclared(At(doc, DeclaredSlot(op)), op)
  {
    hide Completed, Slot, EntryOf, AllOperations, Admitted, Renders, ShowsDeclared, DeclaredSlot;
    AdmittedIsAdmissible(ds, builtins);
    Conservation(ds, builtins, doc);
    EntryShowsDeclared(ds[i].operations[k]);
  }

  /** Exactly which declarations are well formed. */
  lemma WellDeclaredMeans(op: Operation)
    ensures var path, id, status := Text.TrimSpace(op.path), Text.TrimSpace(op.operationID), op.successStatus;
            WellDeclared(Completed(op)) <==>
              && Text.ToLower(Text.TrimSpace(op.verb)) in {"get", "post", "put", "patch", "delete"}
              && path != "" && path[0] == '/' && (path == "/" || Paths.AllPlain(Paths.Segments(path[1..])))
              && (forall c | c in path :: c !in "?# \t\r\n")
              && id != "" && Letter(id[0]) && (forall c | c in id[1..] :: Letter(c) || c in "0123456789._-")
              && Text.TrimSpace(op.summary) != ""
              && (status == 0 || 100 <= status <= 599)
  {
    SupportedMeans(Text.TrimSpace(op.verb));
    var path, id := Text.TrimSpace(op.path), Text.TrimSpace(op.operationID);
    PathCharsMean(path);
    IDShapeMeans(id);
    if Paths.Rooted(path) {
      Paths.CleanFixes(path);
    }
    hide Text.TrimSpace, Text.ToUpper, Text.ToLower, Supported, OperationIDShape, PathChar, Paths.Clean,
        Paths.AllPlain, Paths.Segments;
  }

  predicate FreshName(d: Declaration, builtins: set<string>) {
    d.Declares? && |d.id| > 0 && d.routed && d.id !in builtins
  }

  /** No two modules have one name. */
  predicate DistinctNames(ds: seq<Declaration>) {
    forall i, j | 0 <= i < |ds| && 0 <= j < |ds| && ds[i].Declares? && ds[j].Declares? && ds[i].id == ds[j].id :: i == j
  }

  /** No two operations go to one slot of the document or have one operation ID. */
  predicate Separate(ops: seq<Operation>) {
    && (forall k, l | 0 <= k < |ops| && 0 <= l < |ops| && Slot(ops[k]) == Slot(ops[l]) :: k == l)
    && (forall k, l | 0 <= k < |ops| && 0 <= l < |ops| && ops[k].operationID == ops[l].operationID :: k == l)
  }

  /** Exactly which sets of modules are accepted: each names itself, no built-in one and no other,
      and brings routes; and all operations together are well formed, each with a slot of the
      document and an operation ID of its own. */
  lemma AcceptedModules(ds: seq<Declaration>, builtins: set<string>)
    ensures Admitted(ds, builtins) <==>
              && (forall i | 0 <= i < |ds| :: FreshName(ds[i], builtins)) && DistinctNames(ds)
              && (forall op | op in AllOperations(ds) :: WellDeclared(op)) && Separate(AllOperations(ds))
  {
    SeparateOperations(AllOperations(ds));
    forall i | 0 <= i < |ds| ensures NamesModule(ds[i], builtins) <==> FreshName(ds[i], builtins) {
    }
    hide AllOperations, Admissible, WellDeclared, Separate, NamesModule, FreshName;
    if forall i | 0 <= i < |ds| :: NamesModule(ds[i], builtins) {
      SeparateNames(ds, builtins);
    }
  }

  lemma SeparateNames(ds: seq<Declaration>, builtins: set<string>)
    requires forall i | 0 <= i < |ds| :: ds[i].Declares? && NamesModule(ds[i], builtins)
    ensures (forall i, j | 0 <= i < j < |ds| :: ds[i].id != ds[j].id) <==> DistinctNames(ds)
  {
  }

  lemma SeparateOperations(ops: seq<Operation>)
    ensures Admissible(ops) <==> (forall op | op in ops :: WellDeclared(op)) && Separate(ops)
  {
    hide ValidPath, OperationIDShape, Supported, RouteKey;
    if forall k | 0 <= k < |ops| :: WellDeclared(ops[k]) {
      forall k, l | 0 <= k < |ops| && 0 <= l < |ops|
        ensures RouteKey(ops[k]) == RouteKey(ops[l]) <==> Slot(ops[k]) == Slot(ops[l]) {
        RouteIsSlot(ops[k], ops[l]);
      }
      hide WellDeclared, Slot;
      if Admissible(ops) {
        forall k, l | 0 <= k < l < |ops| ensures !Clash(ops[k], ops[l]) {
        }
      }
    }
  }

  lemma PathCharsMean(path: string)
    ensures (forall i | 0 <= i < |path| :: PathChar(path[i])) <==> forall c | c in path :: c !in "?# \t\r\n"
  {
    assert forall c :: PathChar(c) <==> c !in "?# \t\r\n";
    hide PathChar;
    if forall c | c in path :: c !in "?# \t\r\n" {
      forall i | 0 <= i < |path| ensures PathChar(path[i]) {
        assert path[i] in path;
      }
    }
  }

  lemma LetterMeans(c: char)
    ensures Letter(c) <==> c in "ABCDEFGHIJKLMNOPQRSTUVWXYZ" || c in "abcdefghijklmnopqrstuvwxyz"
  {
    InRange('A', "ABCDEFGHIJKLMNOPQRSTUVWXYZ", c);
    InRange('a', "abcdefghijklmnopqrstuvwxyz", c);
  }

  /** A character is in a text of successive characters exactly when it lies between its ends. */
  lemma InRange(first: char, text: string, c: char)
    requires text != "" && forall i | 0 <= i < |text| :: text[i] as int == first as int + i
    ensures c in text <==> first <= c <= text[|text| - 1]
  {
    if first <= c <= text[|text| - 1] {
      assert text[c as int - first as int] == c;
    }
  }

  lemma IDShapeMeans(id: string)
    ensures OperationIDShape(id) <==>
              id != "" && Letter(id[0]) && forall c | c in id[1..] :: Letter(c) || c in "0123456789._-"
  {
    assert forall c :: c in "0123456789._-" <==> '0' <= c <= '9' || c == '.' || c == '_' || c == '-';
    hide Letter;
    if id != "" {
      assert forall i | 0 < i < |id| :: id[i] == id[1..][i - 1];
      forall i | 0 < i < |id| ensures id[i] in id[1..] {
        assert id[i] == id[1..][i - 1];
      }
    }
  }
}
