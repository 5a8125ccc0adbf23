/** `SqlAlchemyRepositoryStore` over its session, and the create use case in front of it. */
module RepositoryStore {
  import opened Prelude
  import opened NameGrammar
  import opened RepositoryTable
  import opened Paging

  /** The active row meeting a criterion is this one, or there is none. */
  ghost predicate IsActiveMatch(t: Table, criterion: Row -> bool, r: Option<Row>) {
    match r
    case Some(row) => row in t && row.deletedAt == None && criterion(row)
                      && forall other :: other in t && other.deletedAt == None && criterion(other) ==> other == row
    case None => forall row :: row in t && row.deletedAt == None ==> !criterion(row)
  }

  class SqlAlchemyRepositoryStore {
    const fold: Fold
    /** What other sessions see. */
    var committed: Table
    /** What this session's open transaction sees. */
    var session: Table

    ghost predicate Valid()
      reads this
    {
      TableOk(fold, committed) && session == committed
    }

    constructor (fold: Fold)
      ensures Valid() && this.fold == fold && committed == []
    {
      this.fold := fold;
      committed := [];
      session := [];
    }

    /** `create`: flush, and roll back or commit. No failure leaves anything behind. */
    method Create(name: string, id: nat, now: nat, named: bool, fault: Fault) returns (r: Created)
      requires Valid()
      modifies this
      ensures Valid()
      ensures (committed, r) == TryCreate(fold, old(committed), name, id, now, named, fault)
      ensures r.AlreadyExists? && named && !fault.FlushFails? ==> exists row :: row in committed && fold(row.name) == fold(name)
      ensures r.Registered? ==> committed == old(committed) + [r.row] && r.row == Row(id, name, now, now, None)
      ensures !r.Registered? ==> committed == old(committed)
    {
      var model := NewRow(name, id, now);
      var flush := if fault.FlushFails? then Refused(fault.error) else Insert(fold, session, model, named);
      if flush.Refused? {
        session := committed;
        if flush.error.Integrity? && IsDuplicateNameViolation(flush.error) {
          return AlreadyExists;
        }
        return DatabaseError;
      }
      StepKeepsTableOk(fold, committed, Op.Create(name, id, now, named, fault));
      session := flush.table;
      if fault.CommitFails? {
        session := committed;
        return DatabaseError;
      }
      committed := session;
      r := Registered(model);
    }

    method GetById(id: nat) returns (r: Option<Row>)
      requires Valid()
      ensures IsActiveMatch(committed, (row: Row) => row.id == id, r)
    {
      if i :| 0 <= i < |session| && session[i].Active() && session[i].id == id {
        r := Some(session[i]);
      } else {
        r := None;
      }
    }

    /** Lookup and creation agree on what is the same name: a miss means the name is free or only a deleted row's. */
    method GetByName(name: string) returns (r: Option<Row>)
      requires Valid()
      ensures IsActiveMatch(committed, (row: Row) => fold(row.name) == fold(name), r)
      ensures NameTaken(fold, committed, name)
        <==> r.Some? || exists row :: row in committed && row.deletedAt != None && fold(row.name) == fold(name)
    {
      if i :| 0 <= i < |session| && session[i].Active() && fold(session[i].name) == fold(name) {
        r := Some(session[i]);
        assert session[i] in committed;
      } else {
        r := None;
      }
    }

    /**
     * `list`: the active rows whose rank, newest first, falls in the window, in that order. `later` is the
     * table as its second statement, the count, sees it.
     */
    method List(limit: nat, offset: nat, later: Table) returns (page: RepositoryPage)
      requires Valid()
      ensures page == ListPage(committed, later, limit, offset)
      ensures forall i :: 0 <= i < |Listing(committed)| ==>
        (Listing(committed)[i] in page.items <==> offset <= i < offset + limit)
      ensures forall i, j :: 0 <= i < j < |page.items| ==>
        var (a, b) := (page.items[i], page.items[j]);
        a.createdAt > b.createdAt || (a.createdAt == b.createdAt && a.id > b.id)
      ensures forall row :: row in page.items ==> row in committed && row.deletedAt == None
      ensures page.limit == limit && page.offset == offset && page.total == |Listing(later)|
      ensures later == committed ==> |page.items| == Min(limit, Max(page.total - offset, 0))
    {
      SliceOfListing(session, offset, limit);
      var items := Slice(Listing(session), offset, limit);
      var total := |Listing(later)|;
      page := RepositoryPage(items, total, limit, offset);
    }

    /** `delete`: true for every id ever registered, deleted before or not. */
    method Delete(id: nat, now: nat) returns (existed: bool)
      requires Valid()
      modifies this
      ensures Valid()
      ensures |committed| == |old(committed)|
      ensures forall i :: 0 <= i < |committed| ==>
        var was := old(committed)[i];
        committed[i] == if was.id != id then was
                        else Row(was.id, was.name, was.createdAt, now,
                                 if was.deletedAt == None then Some(now) else was.deletedAt)
      ensures existed <==> exists i :: 0 <= i < |old(committed)| && old(committed)[i].id == id
    {
      StepKeepsTableOk(fold, committed, Op.Delete(id, now));
      existed := IdTaken(session, id);
      session := SoftDelete(session, id, now);
      committed := session;
    }
  }

  class CreateRepositoryUseCase {
    const store: SqlAlchemyRepositoryStore
    var log: seq<Row>

    constructor (store: SqlAlchemyRepositoryStore)
      ensures this.store == store && log == []
    {
      this.store := store;
      log := [];
    }

    /** Validate, insert, record. An invalid name never reaches the store; only a success is recorded. */
    method Execute(isSpace: char -> bool, raw: string, id: nat, now: nat, named: bool, fault: Fault) returns (r: Outcome)
      requires store.Valid()
      modifies this, store
      ensures store.Valid()
      ensures (store.committed, r) == Register(store.fold, isSpace, old(store.committed), raw, id, now, named, fault)
      ensures r.Stored? && r.answer.Registered?
              <==> var name := Strip(isSpace, raw);
                   && Reads(NeedAlnum, name) && |name| <= 255 && fault == NoFault
                   && forall row :: row in old(store.committed) ==> row.id != id && store.fold(row.name) != store.fold(name)
      ensures r.Stored? && r.answer.Registered? ==>
        && r.answer.row == Row(id, Strip(isSpace, raw), now, now, None)
        && store.committed == old(store.committed) + [r.answer.row]
        && IsActiveMatch(store.committed, (row: Row) => row.id == id, Some(r.answer.row))
        && IsActiveMatch(store.committed, (row: Row) => store.fold(row.name) == store.fold(r.answer.row.name),
                         Some(r.answer.row))
      ensures r.Rejected? ==> store.committed == old(store.committed) && store.session == old(store.session)
      ensures log == old(log) + if r.Stored? && r.answer.Registered? then [r.answer.row] else []
    {
      RegisterExactly(store.fold, isSpace, store.committed, raw, id, now, named, fault);
      var validated := RepositoryName(isSpace, raw);
      if !validated.Accepted? {
        return Rejected(validated);
      }
      var answer := store.Create(validated.value, id, now, named, fault);
      if answer.Registered? {
        log := log + [answer.row];
      }
      r := Stored(answer);
    }
  }
}
