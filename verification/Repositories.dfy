/**
 The objects that write the tables: the session, the repositories of app/repositories/business.py and the
 unit of work of app/db/unit_of_work.py. Their contracts are the steps of module `Ledger`.
 */
module Repositories {
  import opened Text
  import opened Ledger

  class Database {
    var tables: Tables

    constructor ()
      ensures tables == EMPTY
    {
      tables := EMPTY;
    }
  }

  /** A session sees its own pending writes on top of the database it was opened on. */
  class Session {
    const database: Database
    var view: Tables

    constructor (database: Database)
      ensures this.database == database && view == database.tables
    {
      this.database := database;
      view := database.tables;
    }

    method Commit()
      modifies database
      ensures database.tables == view
    {
      database.tables := view;
    }

    method Rollback()
      modifies this
      ensures view == database.tables
    {
      view := database.tables;
    }

    method Close()
      modifies this
      ensures view == database.tables
    {
      view := database.tables;
    }
  }

  /** The write `w` took the view from `before` to `after`, or raised `raised` and left it alone. */
  predicate Performed(norms: Norms, before: Tables, w: Write, after: Tables, raised: Option<Error>) {
    match Step(norms, before, w)
    case Done(n) => raised.None? && after == n
    case Failed(e) => raised == Some(e) && after == before
  }

  class CatalogRepository {
    const session: Session
    const norms: Norms

    constructor (session: Session, norms: Norms)
      ensures this.session == session && this.norms == norms
    {
      this.session := session;
      this.norms := norms;
    }

    function GetIngredient(storeId: string, id: string): (found: bool)
      reads session
    {
      HasIngredient(session.view, storeId, id)
    }

    function GetSupplier(storeId: string, id: string): (found: bool)
      reads session
    {
      HasSupplier(session.view, storeId, id)
    }

    function GetProduct(storeId: string, id: string): (found: bool)
      reads session
    {
      HasProduct(session.view, storeId, id)
    }

    method AddIngredient(row: Ingredient) returns (raised: Option<Error>)
      modifies session
      ensures Performed(norms, old(session.view), Write.AddIngredient(row), session.view, raised)
    {
      if row.storeId !in session.view.stores {
        return Some(StoreNotFound);
      }
      var name, unit := norms.name(row.name), norms.unit(row.baseUnit);
      if name.None? || unit.None? {
        return Some(ValidationError);
      }
      if exists x | x in session.view.ingredients :: x.id == row.id {
        return Some(IntegrityError);
      }
      session.view := session.view.(
        ingredients := session.view.ingredients + [row.(name := name.value, baseUnit := unit.value)]);
      return None;
    }

    method AddSupplier(row: Supplier) returns (raised: Option<Error>)
      modifies session
      ensures Performed(norms, old(session.view), Write.AddSupplier(row), session.view, raised)
    {
      if row.storeId !in session.view.stores {
        return Some(StoreNotFound);
      }
      var name := norms.name(row.name);
      if name.None? {
        return Some(ValidationError);
      }
      if exists x | x in session.view.suppliers :: x.id == row.id {
        return Some(IntegrityError);
      }
      session.view := session.view.(suppliers := session.view.suppliers + [row.(name := name.value)]);
      return None;
    }

    method AddProduct(row: Product) returns (raised: Option<Error>)
      modifies session
      ensures Performed(norms, old(session.view), Write.AddProduct(row), session.view, raised)
    {
      if row.storeId !in session.view.stores {
        return Some(StoreNotFound);
      }
      var name := norms.name(row.name);
      if name.None? {
        return Some(ValidationError);
      }
      if exists x | x in session.view.products :: x.id == row.id {
        return Some(IntegrityError);
      }
      session.view := session.view.(products := session.view.products + [row.(name := name.value)]);
      return None;
    }

    /** An ingredient of that name in the store is left as it is; otherwise one is added. */
    method GetOrCreateIngredient(row: Ingredient) returns (raised: Option<Error>)
      modifies session
      ensures var name := norms.name(row.name);
        name.Some? && (exists x | x in old(session.view).ingredients :: x.storeId == row.storeId && x.name == name.value) ==>
          raised.None? && session.view == old(session.view)
      ensures var name := norms.name(row.name);
        name.Some? && !(exists x | x in old(session.view).ingredients :: x.storeId == row.storeId && x.name == name.value) ==>
          Performed(norms, old(session.view), Write.AddIngredient(row), session.view, raised)
      ensures norms.name(row.name).None? ==> raised == Some(ValidationError) && session.view == old(session.view)
    {
      var name := norms.name(row.name);
      if name.None? {
        return Some(ValidationError);
      }
      if exists x | x in session.view.ingredients :: x.storeId == row.storeId && x.name == name.value {
        return None;
      }
      raised := AddIngredient(row);
    }
  }

  class SupplierTermRepository {
    const session: Session
    const catalog: CatalogRepository

    constructor (session: Session, norms: Norms)
      ensures this.session == session && catalog.session == session && catalog.norms == norms
    {
      this.session := session;
      this.catalog := new CatalogRepository(session, norms);
    }

    method Add(term: Term) returns (raised: Option<Error>)
      requires catalog.session == session
      modifies session
      ensures Performed(catalog.norms, old(session.view), AddTerm(term), session.view, raised)
    {
      if !catalog.GetSupplier(term.storeId, term.supplierId) || !catalog.GetIngredient(term.storeId, term.ingredientId) {
        return Some(ValidationError);
      }
      var unit := catalog.norms.unit(term.unit);
      if unit.None? {
        return Some(ValidationError);
      }
      session.view := session.view.(terms := session.view.terms + [term.(unit := unit.value)]);
      return None;
    }
  }

  class InventoryRepository {
    const session: Session
    const catalog: CatalogRepository

    constructor (session: Session, norms: Norms)
      ensures this.session == session && catalog.session == session && catalog.norms == norms
    {
      this.session := session;
      this.catalog := new CatalogRepository(session, norms);
    }

    method AddLot(lot: Lot) returns (raised: Option<Error>)
      requires catalog.session == session
      modifies session
      ensures Performed(catalog.norms, old(session.view), Write.AddLot(lot), session.view, raised)
    {
      if !catalog.GetIngredient(lot.storeId, lot.ingredientId) {
        return Some(ValidationError);
      }
      if lot.supplierId != "" && !catalog.GetSupplier(lot.storeId, lot.supplierId) {
        return Some(ValidationError);
      }
      var unit := catalog.norms.unit(lot.unit);
      if unit.None? {
        return Some(ValidationError);
      }
      if exists x | x in session.view.lots :: x.id == lot.id {
        return Some(IntegrityError);
      }
      session.view := session.view.(lots := session.view.lots + [lot.(unit := unit.value)]);
      return None;
    }

    method AddMovement(movement: Movement) returns (raised: Option<Error>)
      requires catalog.session == session
      modifies session
      ensures Performed(catalog.norms, old(session.view), Write.AddMovement(movement), session.view, raised)
    {
      if !HasLot(session.view, movement.storeId, movement.lotId) {
        return Some(ValidationError);
      }
      var unit := catalog.norms.unit(movement.unit);
      if unit.None? {
        return Some(ValidationError);
      }
      if exists x | x in session.view.movements :: x.id == movement.id {
        return Some(IntegrityError);
      }
      session.view := session.view.(movements := session.view.movements + [movement.(unit := unit.value)]);
      return None;
    }

    /** None where the lot is not in the store: ResourceNotFoundError. */
    method CalculateLotBalance(storeId: string, lotId: string) returns (balance: Option<real>)
      ensures balance == if HasLot(session.view, storeId, lotId)
                         then Some(Balance(session.view.movements, storeId, lotId)) else None
    {
      if !HasLot(session.view, storeId, lotId) {
        return None;
      }
      var movements := session.view.movements;
      var value := 0.0;
      for i := 0 to |movements|
        invariant value == Balance(movements[..i], storeId, lotId)
      {
        assert movements[..i + 1][..i] == movements[..i];
        if Moves(movements[i], storeId, lotId) { value := value + movements[i].delta; }
      }
      assert movements[..|movements|] == movements;
      return Some(value);
    }

    method ListLots(storeId: string) returns (lots: seq<Lot>)
      ensures lots == Rows(session.view.lots, (r: Lot) => r.storeId == storeId)
    {
      lots := [];
      ghost var own := (r: Lot) => r.storeId == storeId;
      for i := 0 to |session.view.lots|
        invariant lots == Rows(session.view.lots[..i], own)
      {
        assert session.view.lots[..i + 1][..i] == session.view.lots[..i];
        if session.view.lots[i].storeId == storeId { lots := lots + [session.view.lots[i]]; }
      }
      assert session.view.lots[..|session.view.lots|] == session.view.lots;
    }
  }

  class HistoryRepository {
    const session: Session
    const catalog: CatalogRepository

    constructor (session: Session, norms: Norms)
      ensures this.session == session && catalog.session == session && catalog.norms == norms
    {
      this.session := session;
      this.catalog := new CatalogRepository(session, norms);
    }

    method AddSales(row: Sale) returns (raised: Option<Error>)
      requires catalog.session == session
      modifies session
      ensures Performed(catalog.norms, old(session.view), AddSale(row), session.view, raised)
    {
      if !catalog.GetProduct(row.storeId, row.productId) {
        return Some(ValidationError);
      }
      session.view := session.view.(sales := session.view.sales + [row]);
      return None;
    }

    method AddUsage(row: Usage) returns (raised: Option<Error>)
      requires catalog.session == session
      modifies session
      ensures Performed(catalog.norms, old(session.view), Write.AddUsage(row), session.view, raised)
    {
      if !catalog.GetIngredient(row.storeId, row.ingredientId) {
        return Some(ValidationError);
      }
      var unit := catalog.norms.unit(row.unit);
      if unit.None? {
        return Some(ValidationError);
      }
      session.view := session.view.(usages := session.view.usages + [row.(unit := unit.value)]);
      return None;
    }

    method AddReceipt(row: Receipt) returns (raised: Option<Error>)
      requires catalog.session == session
      modifies session
      ensures Performed(catalog.norms, old(session.view), Write.AddReceipt(row), session.view, raised)
    {
      if !catalog.GetIngredient(row.storeId, row.ingredientId)
         || (row.supplierId != "" && !catalog.GetSupplier(row.storeId, row.supplierId)) {
        return Some(ValidationError);
      }
      var unit := catalog.norms.unit(row.unit);
      if unit.None? {
        return Some(ValidationError);
      }
      session.view := session.view.(receipts := session.view.receipts + [row.(unit := unit.value)]);
      return None;
    }
  }

  class StoreConfigurationRepository {
    const session: Session

    constructor (session: Session)
      ensures this.session == session
    {
      this.session := session;
    }

    method UpsertSettings(norms: Norms, storeId: string, settings: Settings) returns (raised: Option<Error>)
      modifies session
      ensures Performed(norms, old(session.view), Write.UpsertSettings(storeId, settings), session.view, raised)
    {
      if storeId !in session.view.stores {
        return Some(StoreNotFound);
      }
      if storeId !in session.view.settings {
        session.view := session.view.(settings := session.view.settings[storeId := settings]);
        return None;
      }
      var current := session.view.settings[storeId];
      current := current.(budget := settings.budget, horizon := settings.horizon, strategy := settings.strategy,
                          safetyPolicy := settings.safetyPolicy);
      current := current.(version := current.version + 1);
      session.view := session.view.(settings := session.view.settings[storeId := current]);
      return None;
    }

    method UpsertCalendar(norms: Norms, storeId: string, day: int, feature: Feature) returns (raised: Option<Error>)
      modifies session
      ensures Performed(norms, old(session.view), Write.UpsertCalendar(storeId, day, feature), session.view, raised)
    {
      if storeId !in session.view.stores {
        return Some(StoreNotFound);
      }
      session.view := session.view.(calendar := session.view.calendar[(storeId, day) := feature]);
      return None;
    }
  }

  /** The unit of work; its abstract state is a `State` of the run model once it has been entered. */
  class UnitOfWork {
    const database: Database
    var session: Session?
    var committed: bool

    constructor (database: Database)
      ensures this.database == database && session == null && !committed
    {
      this.database := database;
      session, committed := null, false;
    }

    ghost predicate Valid()
      reads this
    {
      session != null ==> session.database == database
    }

    ghost function Current(): State
      requires session != null
      reads this, database, session
    {
      State(database.tables, session.view, committed)
    }

    /** The flag is not reset, so a unit entered for the first time starts as `Entered`. */
    method Enter()
      requires Valid()
      modifies this
      ensures Valid() && session != null && fresh(session)
      ensures Current() == Entered(database.tables).(committed := old(committed))
    {
      session := new Session(database);
    }

    /** False where RuntimeError is raised: the unit has not been entered. */
    method Commit(ghost norms: Norms) returns (entered: bool)
      requires Valid()
      modifies this, database
      ensures Valid() && session == old(session)
      ensures entered <==> session != null
      ensures session != null ==> Current() == Apply(norms, old(Current()), Op.Commit)
      ensures session == null ==> database.tables == old(database.tables) && committed == old(committed)
    {
      if session == null {
        return false;
      }
      session.Commit();
      committed := true;
      return true;
    }

    method Rollback(ghost norms: Norms)
      requires Valid()
      modifies session
      ensures Valid()
      ensures session != null ==> Current() == Apply(norms, old(Current()), Op.Rollback)
    {
      if session != null { session.Rollback(); }
    }

    method Exit(ghost norms: Norms, exceptional: bool)
      requires Valid()
      modifies session
      ensures Valid()
      ensures session != null ==> Current() == Exited(norms, old(Current()), exceptional)
    {
      if session == null {
        return;
      }
      if exceptional || !committed { session.Rollback(); }
      session.Close();
    }
  }
}
