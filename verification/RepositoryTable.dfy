/** The `repositories` table: rows, its unique indexes, and what sequences of creates and soft deletes make of it. */
module RepositoryTable {
  import opened Prelude
  import opened NameGrammar

  const UNIQUE_VIOLATION_SQLSTATE := "23505"
  const CHECK_VIOLATION_SQLSTATE := "23514"
  const NAME_UNIQUE_INDEX := "ix_repositories_name"
  const PRIMARY_KEY := "repositories_pkey"
  const NAME_LENGTH_CHECK := "ck_repositories_name_length"
  const MAX_NAME_LENGTH := 255

  /** A stored row. Ids are uuids, here any ordered numbers; times come from the database clock. */
  datatype Row = Row(id: nat, name: string, createdAt: nat, updatedAt: nat, deletedAt: Option<nat>)
  {
    predicate Active() {
      deletedAt.None?
    }
  }

  /** Rows in insertion order; an update changes a row in place. */
  type Table = seq<Row>

  /** The case folding CITEXT compares under. */
  type Fold = string -> string

  // ---------- the database's side of an insert ----------

  datatype DriverError = DriverError(sqlstate: Option<string>, constraintName: Option<string>)

  datatype DbError = Integrity(orig: Option<DriverError>) | OtherDbError

  datatype Flushed = Inserted(table: Table) | Refused(error: DbError)

  predicate IdTaken(t: Table, id: nat) {
    exists i :: 0 <= i < |t| && t[i].id == id
  }

  predicate NameTaken(fold: Fold, t: Table, name: string) {
    exists i :: 0 <= i < |t| && fold(t[i].name) == fold(name)
  }

  function Violation(sqlstate: string, constraint: string, named: bool): DbError {
    Integrity(Some(DriverError(Some(sqlstate), if named then Some(constraint) else None)))
  }

  /** Check constraint, primary key, unique index. `named` says whether the driver reports constraint names. */
  function Insert(fold: Fold, t: Table, row: Row, named: bool): Flushed {
    if |row.name| > MAX_NAME_LENGTH then Refused(Violation(CHECK_VIOLATION_SQLSTATE, NAME_LENGTH_CHECK, named))
    else if IdTaken(t, row.id) then Refused(Violation(UNIQUE_VIOLATION_SQLSTATE, PRIMARY_KEY, named))
    else if NameTaken(fold, t, row.name) then Refused(Violation(UNIQUE_VIOLATION_SQLSTATE, NAME_UNIQUE_INDEX, named))
    else Inserted(t + [row])
  }

  // ---------- the adapter ----------

  /** `_is_duplicate_name_violation` */
  predicate IsDuplicateNameViolation(error: DbError)
    requires error.Integrity?
  {
    && error.orig.Some?
    && error.orig.value.sqlstate == Some(UNIQUE_VIOLATION_SQLSTATE)
    && (error.orig.value.constraintName == None || error.orig.value.constraintName == Some(NAME_UNIQUE_INDEX))
  }

  /** What else can go wrong while a create runs: the flush reports an error of its own, or the commit fails. */
  datatype Fault = NoFault | FlushFails(error: DbError) | CommitFails

  datatype Created = Registered(row: Row) | AlreadyExists | DatabaseError

  datatype Op =
    | Create(name: string, id: nat, now: nat, named: bool, fault: Fault)
    | Delete(target: nat, at: nat)

  function NewRow(name: string, id: nat, now: nat): Row {
    Row(id, name, now, now, None)
  }

  /** `create`: the table afterwards, and what the caller is told. */
  function TryCreate(fold: Fold, t: Table, name: string, id: nat, now: nat, named: bool, fault: Fault): (Table, Created) {
    var flushed := if fault.FlushFails? then Refused(fault.error) else Insert(fold, t, NewRow(name, id, now), named);
    match flushed
    case Refused(error) =>
      (t, if error.Integrity? && IsDuplicateNameViolation(error) then AlreadyExists else DatabaseError)
    case Inserted(t') => if fault.CommitFails? then (t, DatabaseError) else (t', Registered(NewRow(name, id, now)))
  }

  /** `UPDATE ... SET deleted_at = coalesce(deleted_at, now())`, with the model's onupdate for updated_at. */
  function SoftDelete(t: Table, id: nat, now: nat): Table {
    seq(|t|, i requires 0 <= i < |t| =>
      if t[i].id == id then
        t[i].(deletedAt := if t[i].Active() then Some(now) else t[i].deletedAt, updatedAt := now)
      else t[i])
  }

  function Step(fold: Fold, t: Table, op: Op): Table {
    match op
    case Create(name, id, now, named, fault) => TryCreate(fold, t, name, id, now, named, fault).0
    case Delete(id, now) => SoftDelete(t, id, now)
  }

  function RunOps(fold: Fold, t: Table, ops: seq<Op>): Table {
    if ops == [] then t else Step(fold, RunOps(fold, t, ops[..|ops| - 1]), ops[|ops| - 1])
  }

  // ---------- create answers honestly ----------

  /**
   * A conflict is answered exactly when the name is taken, soft-deleted rows included; anything else the
   * database refuses stays an error. The one blur is a driver that reports no constraint names: then a
   * colliding id is answered as a conflict too.
   */
  lemma ConflictExactly(fold: Fold, t: Table, name: string, id: nat, now: nat, named: bool, fault: Fault)
    ensures var (t', r) := TryCreate(fold, t, name, id, now, named, fault);
            var idTaken := exists i :: 0 <= i < |t| && t[i].id == id;
            var nameTaken := exists i :: 0 <= i < |t| && fold(t[i].name) == fold(name);
            && (r.AlreadyExists? <==>
                  if fault.FlushFails? then
                    fault.error == Integrity(Some(DriverError(Some("23505"), None)))
                    || fault.error == Integrity(Some(DriverError(Some("23505"), Some("ix_repositories_name"))))
                  else
                    |name| <= 255 && (if named then !idTaken && nameTaken else idTaken || nameTaken))
            && (r.Registered? <==> fault.NoFault? && |name| <= 255 && !idTaken && !nameTaken)
            && (r.Registered? ==> t' == t + [r.row] && r.row == Row(id, name, now, now, None))
            && (!r.Registered? ==> t' == t)
  {
  }

  // ---------- invariants over runs ----------

  ghost predicate TableOk(fold: Fold, t: Table) {
    && (forall i, j :: 0 <= i < j < |t| ==> t[i].id != t[j].id)
    && (forall i, j :: 0 <= i < j < |t| ==> fold(t[i].name) != fold(t[j].name))
    && (forall i :: 0 <= i < |t| ==> |t[i].name| <= MAX_NAME_LENGTH)
  }

  lemma StepKeepsTableOk(fold: Fold, t: Table, op: Op)
    requires TableOk(fold, t)
    ensures TableOk(fold, Step(fold, t, op))
  {
    if op.Create? {
      ConflictExactly(fold, t, op.name, op.id, op.now, op.named, op.fault);
    }
  }

  lemma {:induction false} RunKeepsTableOk(fold: Fold, t: Table, ops: seq<Op>)
    requires TableOk(fold, t)
    ensures TableOk(fold, RunOps(fold, t, ops))
  {
    if ops != [] {
      RunKeepsTableOk(fold, t, ops[..|ops| - 1]);
      StepKeepsTableOk(fold, RunOps(fold, t, ops[..|ops| - 1]), ops[|ops| - 1]);
    }
  }

  /** Over every sequence of creates and deletes no two rows, deleted ones included, share a case-folded name. */
  lemma NamesStayUnique(fold: Fold, ops: seq<Op>, i: nat, j: nat)
    requires i < j < |RunOps(fold, [], ops)|
    ensures fold(RunOps(fold, [], ops)[i].name) != fold(RunOps(fold, [], ops)[j].name)
    ensures RunOps(fold, [], ops)[i].id != RunOps(fold, [], ops)[j].id
  {
    RunKeepsTableOk(fold, [], ops);
  }

  /** What the life of a row may bring: never a new name or birth, deletion once, and its moment is final. */
  predicate Descends(was: Row, now: Row) {
    && now.id == was.id && now.name == was.name && now.createdAt == was.createdAt
    && (was.deletedAt.Some? ==> now.deletedAt == was.deletedAt)
  }

  ghost predicate Evolves(t: Table, t': Table) {
    |t| <= |t'| && forall i :: 0 <= i < |t| ==> Descends(t[i], t'[i])
  }

  lemma {:induction false} RunEvolves(fold: Fold, t: Table, ops: seq<Op>)
    ensures Evolves(t, RunOps(fold, t, ops))
  {
    if ops != [] {
      RunEvolves(fold, t, ops[..|ops| - 1]);
      var mid := RunOps(fold, t, ops[..|ops| - 1]);
      var op := ops[|ops| - 1];
      assert Evolves(mid, Step(fold, mid, op)) by {
        if op.Create? {
          ConflictExactly(fold, mid, op.name, op.id, op.now, op.named, op.fault);
        }
      }
    }
  }

  lemma {:induction false} RunSplit(fold: Fold, t: Table, first: seq<Op>, second: seq<Op>)
    ensures RunOps(fold, t, first + second) == RunOps(fold, RunOps(fold, t, first), second)
    decreases |second|
  {
    if second == [] {
      assert first + second == first;
    } else {
      var k := |second| - 1;
      assert (first + second)[..|first + second| - 1] == first + second[..k];
      RunSplit(fold, t, first, second[..k]);
    }
  }

  /** The moment of the first delete of this id, and of the last. */
  function FirstDelete(ops: seq<Op>, id: nat): Option<nat> {
    if ops == [] then None
    else if ops[0].Delete? && ops[0].target == id then Some(ops[0].at)
    else FirstDelete(ops[1..], id)
  }

  function LastDelete(ops: seq<Op>, id: nat): Option<nat> {
    if ops == [] then None
    else
      var last := ops[|ops| - 1];
      if last.Delete? && last.target == id then Some(last.at) else LastDelete(ops[..|ops| - 1], id)
  }

  lemma {:induction false} FirstDeleteSnoc(ops: seq<Op>, op: Op, id: nat)
    ensures FirstDelete(ops + [op], id)
         == if FirstDelete(ops, id).Some? then FirstDelete(ops, id)
            else if op.Delete? && op.target == id then Some(op.at) else None
  {
    if ops == [] {
      assert ([] + [op])[1..] == [];
    } else {
      assert (ops + [op])[1..] == ops[1..] + [op];
      FirstDeleteSnoc(ops[1..], op, id);
    }
  }

  lemma DeletedRow(t: Table, op: Op, fold: Fold, i: nat)
    requires op.Delete? && i < |t|
    ensures var t' := Step(fold, t, op);
            |t'| == |t| && t'[i] == if t[i].id != op.target then t[i]
                                    else Row(t[i].id, t[i].name, t[i].createdAt, op.at,
                                             if t[i].deletedAt == None then Some(op.at) else t[i].deletedAt)
  {
  }

  /**
   * The life of a row, over every run: it is deleted at the moment of the first delete of its id and at no
   * other, updated at the moment of the last, and nothing else about it ever changes.
   */
  lemma {:induction false} RowHistory(fold: Fold, t: Table, ops: seq<Op>, i: nat)
    requires i < |t|
    ensures var t' := RunOps(fold, t, ops);
            && |t| <= |t'|
            && t'[i].id == t[i].id && t'[i].name == t[i].name && t'[i].createdAt == t[i].createdAt
            && t'[i].deletedAt == (if t[i].deletedAt.Some? then t[i].deletedAt else FirstDelete(ops, t[i].id))
            && t'[i].updatedAt == (if LastDelete(ops, t[i].id).Some? then LastDelete(ops, t[i].id).value else t[i].updatedAt)
  {
    if ops != [] {
      var k := |ops| - 1;
      var mid, op := RunOps(fold, t, ops[..k]), ops[k];
      RowHistory(fold, t, ops[..k], i);
      FirstDeleteSnoc(ops[..k], op, t[i].id);
      assert ops == ops[..k] + [op];
      if op.Create? {
        ConflictExactly(fold, mid, op.name, op.id, op.now, op.named, op.fault);
      } else {
        DeletedRow(mid, op, fold, i);
      }
    }
  }

  /** Between any two points of any run every row keeps its id, name and creation time, and once deleted its deletion time. */
  lemma RowsOnlyDescend(fold: Fold, before: seq<Op>, after: seq<Op>)
    ensures Evolves(RunOps(fold, [], before), RunOps(fold, [], before + after))
  {
    RunSplit(fold, [], before, after);
    RunEvolves(fold, RunOps(fold, [], before), after);
  }

  /**
   * Deleting twice: the first moment of deletion stands, the row stays deleted, and nothing else in the table
   * moves. It is not a no-op, though: it is one exactly when the id is unknown or the clock has not advanced.
   */
  lemma RepeatedDelete(t: Table, id: nat, first: nat, second: nat)
    ensures var once := SoftDelete(t, id, first);
            var twice := SoftDelete(once, id, second);
            && |twice| == |t|
            && (forall i :: 0 <= i < |t| ==> twice[i].deletedAt == once[i].deletedAt)
            && (forall i :: 0 <= i < |t| && t[i].id == id ==>
                  && once[i].deletedAt == (if t[i].deletedAt == None then Some(first) else t[i].deletedAt)
                  && once[i].updatedAt == first && twice[i].updatedAt == second)
            && (forall i :: 0 <= i < |t| && t[i].id != id ==> twice[i] == t[i])
            && (twice == once <==> first == second || !IdTaken(t, id))
  {
    var once := SoftDelete(t, id, first);
    var twice := SoftDelete(once, id, second);
    if IdTaken(t, id) && first != second {
      var i :| 0 <= i < |t| && t[i].id == id;
      assert twice[i].updatedAt != once[i].updatedAt;
    } else {
      assert forall i :: 0 <= i < |t| ==> twice[i] == once[i];
    }
  }

  // ---------- the create use case in front ----------

  /** Folding leaves a string of grammar characters alone: CITEXT lowercases, and they have no upper case. */
  ghost predicate FixesAlphabet(fold: Fold) {
    forall s: string :: (forall i :: 0 <= i < |s| ==> InAlphabet(s[i])) ==> fold(s) == s
  }

  datatype Outcome = Rejected(reason: Constructed) | Stored(answer: Created)

  /** `CreateRepositoryUseCase.execute`: an invalid name never reaches the store. */
  function Register(fold: Fold, isSpace: char -> bool, t: Table, raw: string, id: nat, now: nat, named: bool, fault: Fault):
    (Table, Outcome)
  {
    match RepositoryName(isSpace, raw)
    case Accepted(name) =>
      var (t', r) := TryCreate(fold, t, name, id, now, named, fault);
      (t', Stored(r))
    case reason => (t, Rejected(reason))
  }

  datatype Request =
    | RegisterName(raw: string, id: nat, now: nat, named: bool, fault: Fault)
    | DeleteId(target: nat, at: nat)

  function Serve(fold: Fold, isSpace: char -> bool, t: Table, r: Request): Table {
    match r
    case RegisterName(raw, id, now, named, fault) => Register(fold, isSpace, t, raw, id, now, named, fault).0
    case DeleteId(id, now) => SoftDelete(t, id, now)
  }

  function ServeAll(fold: Fold, isSpace: char -> bool, rs: seq<Request>): Table {
    if rs == [] then [] else Serve(fold, isSpace, ServeAll(fold, isSpace, rs[..|rs| - 1]), rs[|rs| - 1])
  }

  /** Registering under a name, written out: what is accepted, what is stored, and what the caller is told. */
  lemma RegisterExactly(fold: Fold, isSpace: char -> bool, t: Table, raw: string, id: nat, now: nat, named: bool, fault: Fault)
    ensures var (t', r) := Register(fold, isSpace, t, raw, id, now, named, fault);
            var name := Strip(isSpace, raw);
            var legal := Reads(NeedAlnum, name) && |name| <= 255;
            var free := forall i :: 0 <= i < |t| ==> t[i].id != id && fold(t[i].name) != fold(name);
            && (r.Rejected? <==> !legal)
            && (r == Rejected(TooLong) <==> |name| > 255)
            && (r.Stored? && r.answer.Registered? <==> legal && free && fault == NoFault)
            && (legal && free && fault == NoFault ==>
                  t' == t + [Row(id, name, now, now, None)] && r == Stored(Registered(Row(id, name, now, now, None))))
            && (!(legal && free && fault == NoFault) ==> t' == t)
  {
    var name := Strip(isSpace, raw);
    ConstructionExact(isSpace, raw, name);
    ConflictExactly(fold, t, name, id, now, named, fault);
  }

  /** The operations that reach the store: the creates whose stripped name is legal, and every delete. */
  function Reaching(isSpace: char -> bool, rs: seq<Request>): seq<Op> {
    if rs == [] then []
    else
      var k := |rs| - 1;
      Reaching(isSpace, rs[..k])
      + match rs[k]
        case RegisterName(raw, id, now, named, fault) =>
          if Reads(NeedAlnum, Strip(isSpace, raw)) && |Strip(isSpace, raw)| <= 255
          then [Create(Strip(isSpace, raw), id, now, named, fault)] else []
        case DeleteId(id, at) => [Delete(id, at)]
  }

  lemma RunOpsSnoc(fold: Fold, t: Table, ops: seq<Op>, op: Op)
    ensures RunOps(fold, t, ops + [op]) == Step(fold, RunOps(fold, t, ops), op)
  {
    assert (ops + [op])[..|ops|] == ops;
  }

  /** Behind the use case the table is what the legal creates and the deletes, in their order, make of it. */
  lemma {:induction false} ServedIsARun(fold: Fold, isSpace: char -> bool, rs: seq<Request>)
    ensures ServeAll(fold, isSpace, rs) == RunOps(fold, [], Reaching(isSpace, rs))
  {
    if rs != [] {
      var k := |rs| - 1;
      var sofar := Reaching(isSpace, rs[..k]);
      ServedIsARun(fold, isSpace, rs[..k]);
      match rs[k] {
        case RegisterName(raw, id, now, named, fault) =>
          ConstructionExact(isSpace, raw, Strip(isSpace, raw));
          RunOpsSnoc(fold, [], sofar, Create(Strip(isSpace, raw), id, now, named, fault));
          assert sofar + [] == sofar;
        case DeleteId(id, at) => RunOpsSnoc(fold, [], sofar, Delete(id, at));
      }
    }
  }

  /** Every name a table holds is one the grammar accepts. */
  ghost predicate LegalNames(t: Table) {
    forall i :: 0 <= i < |t| ==> Matches(NAME, t[i].name) && |t[i].name| <= 255
  }

  lemma {:induction false} ServedNamesAreLegal(fold: Fold, isSpace: char -> bool, rs: seq<Request>)
    ensures LegalNames(ServeAll(fold, isSpace, rs)) && TableOk(fold, ServeAll(fold, isSpace, rs))
  {
    if rs != [] {
      var k := |rs| - 1;
      ServedNamesAreLegal(fold, isSpace, rs[..k]);
      var t := ServeAll(fold, isSpace, rs[..k]);
      match rs[k] {
        case RegisterName(raw, id, now, named, fault) =>
          if RepositoryName(isSpace, raw).Accepted? {
            var name := RepositoryName(isSpace, raw).value;
            ConstructionExact(isSpace, raw, name);
            NameReads(name);
            ConflictExactly(fold, t, name, id, now, named, fault);
            StepKeepsTableOk(fold, t, Create(name, id, now, named, fault));
          }
        case DeleteId(id, now) => StepKeepsTableOk(fold, t, Delete(id, now));
      }
    }
  }

  /** Folding tells legal names apart exactly as equality does. */
  lemma LegalNamesFold(fold: Fold, s: string)
    requires FixesAlphabet(fold) && Matches(NAME, s)
    ensures fold(s) == s
  {
    MatchesAlphabet(NAME, s);
  }

  lemma NameTakenIsEquality(fold: Fold, t: Table, name: string)
    requires FixesAlphabet(fold) && LegalNames(t) && Matches(NAME, name)
    ensures NameTaken(fold, t, name) <==> exists i :: 0 <= i < |t| && t[i].name == name
  {
    LegalNamesFold(fold, name);
    forall i | 0 <= i < |t|
      ensures fold(t[i].name) == t[i].name
    {
      LegalNamesFold(fold, t[i].name);
    }
  }

  /**
   * Behind the use case the case-insensitive index is plain equality: over every run of requests, a create
   * that reaches a working database with a fresh id conflicts exactly when some row, deleted or not, has
   * exactly its stripped name.
   */
  lemma ConflictIsEquality(fold: Fold, isSpace: char -> bool, rs: seq<Request>, raw: string, id: nat, now: nat, named: bool)
    requires FixesAlphabet(fold)
    requires !IdTaken(ServeAll(fold, isSpace, rs), id)
    requires RepositoryName(isSpace, raw).Accepted?
    ensures var t := ServeAll(fold, isSpace, rs);
            var name := Strip(isSpace, raw);
            Register(fold, isSpace, t, raw, id, now, named, NoFault).1 == Stored(AlreadyExists)
            <==> exists i :: 0 <= i < |t| && t[i].name == name
  {
    var t := ServeAll(fold, isSpace, rs);
    var name := RepositoryName(isSpace, raw).value;
    ServedNamesAreLegal(fold, isSpace, rs);
    ConstructionExact(isSpace, raw, name);
    NameReads(name);
    ConflictExactly(fold, t, name, id, now, named, NoFault);
    NameTakenIsEquality(fold, t, name);
  }
}
