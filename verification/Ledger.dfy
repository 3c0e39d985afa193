/**
 The business tables of all stores and the writes of app/repositories/business.py, as values.

 `Tables` is what a transaction sees. Rows keep the columns that the writes read or change. A write that
 raises leaves the tables as they were.
 */
module Ledger {
  import opened Text

  datatype Ingredient = Ingredient(id: string, storeId: string, name: string, baseUnit: string)
  datatype Supplier = Supplier(id: string, storeId: string, name: string)
  datatype Product = Product(id: string, storeId: string, name: string)
  /** `supplierId` is "" when the lot has no supplier; likewise for receipts. */
  datatype Lot = Lot(id: string, storeId: string, ingredientId: string, supplierId: string, unit: string)
  datatype Movement = Movement(id: string, storeId: string, lotId: string, delta: real, unit: string)
  datatype Term = Term(id: string, storeId: string, supplierId: string, ingredientId: string, unit: string)
  datatype Sale = Sale(id: string, storeId: string, productId: string, quantity: real)
  datatype Usage = Usage(id: string, storeId: string, ingredientId: string, quantity: real, unit: string)
  datatype Receipt = Receipt(id: string, storeId: string, ingredientId: string, supplierId: string, quantity: real, unit: string)
  datatype Settings = Settings(budget: int, horizon: int, strategy: string, safetyPolicy: Option<string>, version: int)
  datatype Feature = Feature(weekend: bool, holiday: bool, closed: bool, promotion: bool, source: string)

  datatype Tables = Tables(
    stores: set<string>,
    ingredients: seq<Ingredient>, suppliers: seq<Supplier>, products: seq<Product>, terms: seq<Term>,
    lots: seq<Lot>, movements: seq<Movement>,
    sales: seq<Sale>, usages: seq<Usage>, receipts: seq<Receipt>,
    settings: map<string, Settings>, calendar: map<(string, int), Feature>)

  const EMPTY := Tables({}, [], [], [], [], [], [], [], [], [], map[], map[])

  datatype Error = StoreNotFound | ResourceNotFound | ValidationError | IntegrityError

  /** display_name/normalize_name and normalize_unit; None where they raise ValidationError. */
  datatype Norms = Norms(name: string -> Option<string>, unit: string -> Option<string>)

  datatype Write =
    | AddStore(storeId: string)
    | AddIngredient(ingredient: Ingredient)
    | AddSupplier(supplier: Supplier)
    | AddProduct(product: Product)
    | AddTerm(term: Term)
    | AddLot(lot: Lot)
    | AddMovement(movement: Movement)
    | AddSale(sale: Sale)
    | AddUsage(usage: Usage)
    | AddReceipt(receipt: Receipt)
    | UpsertSettings(settingsStore: string, settings: Settings)
    | UpsertCalendar(calendarStore: string, day: int, feature: Feature)
  {
    /** The store the row belongs to. */
    function Store(): string {
      match this
      case AddStore(s) => s
      case AddIngredient(r) => r.storeId
      case AddSupplier(r) => r.storeId
      case AddProduct(r) => r.storeId
      case AddTerm(r) => r.storeId
      case AddLot(r) => r.storeId
      case AddMovement(r) => r.storeId
      case AddSale(r) => r.storeId
      case AddUsage(r) => r.storeId
      case AddReceipt(r) => r.storeId
      case UpsertSettings(s, _) => s
      case UpsertCalendar(s, _, _) => s
    }
  }

  datatype Outcome = Done(tables: Tables) | Failed(error: Error)

  // ---------- lookups ----------

  predicate HasIngredient(t: Tables, storeId: string, id: string) {
    exists r | r in t.ingredients :: r.storeId == storeId && r.id == id
  }

  predicate HasSupplier(t: Tables, storeId: string, id: string) {
    exists r | r in t.suppliers :: r.storeId == storeId && r.id == id
  }

  predicate HasProduct(t: Tables, storeId: string, id: string) {
    exists r | r in t.products :: r.storeId == storeId && r.id == id
  }

  predicate HasLot(t: Tables, storeId: string, id: string) {
    exists r | r in t.lots :: r.storeId == storeId && r.id == id
  }

  // ---------- the writes ----------

  /** The tables after a write, or the error it raises. */
  function Step(norms: Norms, t: Tables, w: Write): Outcome {
    match w
    case AddStore(s) => if s in t.stores then Failed(IntegrityError) else Done(t.(stores := t.stores + {s}))
    case AddIngredient(r) =>
      if r.storeId !in t.stores then Failed(StoreNotFound)
      else (match (norms.name(r.name), norms.unit(r.baseUnit))
            case (Some(name), Some(unit)) =>
              if exists x | x in t.ingredients :: x.id == r.id then Failed(IntegrityError)
              else Done(t.(ingredients := t.ingredients + [r.(name := name, baseUnit := unit)]))
            case _ => Failed(ValidationError))
    case AddSupplier(r) =>
      if r.storeId !in t.stores then Failed(StoreNotFound)
      else (match norms.name(r.name)
            case Some(name) =>
              if exists x | x in t.suppliers :: x.id == r.id then Failed(IntegrityError)
              else Done(t.(suppliers := t.suppliers + [r.(name := name)]))
            case None => Failed(ValidationError))
    case AddProduct(r) =>
      if r.storeId !in t.stores then Failed(StoreNotFound)
      else (match norms.name(r.name)
            case Some(name) =>
              if exists x | x in t.products :: x.id == r.id then Failed(IntegrityError)
              else Done(t.(products := t.products + [r.(name := name)]))
            case None => Failed(ValidationError))
    case AddTerm(r) =>
      if !HasSupplier(t, r.storeId, r.supplierId) || !HasIngredient(t, r.storeId, r.ingredientId) then
        Failed(ValidationError)
      else (match norms.unit(r.unit)
            case Some(unit) => Done(t.(terms := t.terms + [r.(unit := unit)]))
            case None => Failed(ValidationError))
    case AddLot(r) => StepLot(norms, t, r)
    case AddMovement(r) => StepMovement(norms, t, r)
    case AddSale(r) =>
      if !HasProduct(t, r.storeId, r.productId) then Failed(ValidationError) else Done(t.(sales := t.sales + [r]))
    case AddUsage(r) =>
      if !HasIngredient(t, r.storeId, r.ingredientId) then Failed(ValidationError)
      else (match norms.unit(r.unit)
            case Some(unit) => Done(t.(usages := t.usages + [r.(unit := unit)]))
            case None => Failed(ValidationError))
    case AddReceipt(r) =>
      if !HasIngredient(t, r.storeId, r.ingredientId)
         || (r.supplierId != "" && !HasSupplier(t, r.storeId, r.supplierId)) then Failed(ValidationError)
      else (match norms.unit(r.unit)
            case Some(unit) => Done(t.(receipts := t.receipts + [r.(unit := unit)]))
            case None => Failed(ValidationError))
    case UpsertSettings(s, settings) => StepSettings(t, s, settings)
    case UpsertCalendar(s, day, feature) =>
      if s !in t.stores then Failed(StoreNotFound) else Done(t.(calendar := t.calendar[(s, day) := feature]))
  }

  function StepLot(norms: Norms, t: Tables, r: Lot): Outcome {
    if !HasIngredient(t, r.storeId, r.ingredientId) then Failed(ValidationError)
    else if r.supplierId != "" && !HasSupplier(t, r.storeId, r.supplierId) then Failed(ValidationError)
    else match norms.unit(r.unit)
      case None => Failed(ValidationError)
      case Some(unit) =>
        if exists x | x in t.lots :: x.id == r.id then Failed(IntegrityError)
        else Done(t.(lots := t.lots + [r.(unit := unit)]))
  }

  function StepMovement(norms: Norms, t: Tables, r: Movement): Outcome {
    if !HasLot(t, r.storeId, r.lotId) then Failed(ValidationError)
    else match norms.unit(r.unit)
      case None => Failed(ValidationError)
      case Some(unit) =>
        if exists x | x in t.movements :: x.id == r.id then Failed(IntegrityError)
        else Done(t.(movements := t.movements + [r.(unit := unit)]))
  }

  /** A second write overwrites the four fields and counts the version up; the written version is ignored. */
  function StepSettings(t: Tables, s: string, settings: Settings): Outcome {
    if s !in t.stores then Failed(StoreNotFound)
    else if s !in t.settings then Done(t.(settings := t.settings[s := settings]))
    else Done(t.(settings := t.settings[s := settings.(version := t.settings[s].version + 1)]))
  }

  function Next(norms: Norms, t: Tables, w: Write): Tables {
    match Step(norms, t, w) case Done(n) => n case Failed(_) => t
  }

  // ---------- the invariant ----------

  ghost predicate UniqueLots(lots: seq<Lot>) {
    forall i, j | 0 <= i < j < |lots| :: lots[i].id != lots[j].id
  }

  /** Every reference between rows stays within one store, and lot ids are unique. */
  ghost predicate Consistent(t: Tables) {
    && UniqueLots(t.lots)
    && (forall r | r in t.lots ::
          HasIngredient(t, r.storeId, r.ingredientId) && (r.supplierId != "" ==> HasSupplier(t, r.storeId, r.supplierId)))
    && (forall r | r in t.movements :: HasLot(t, r.storeId, r.lotId))
    && (forall r | r in t.terms :: HasSupplier(t, r.storeId, r.supplierId) && HasIngredient(t, r.storeId, r.ingredientId))
    && (forall r | r in t.sales :: HasProduct(t, r.storeId, r.productId))
    && (forall r | r in t.usages :: HasIngredient(t, r.storeId, r.ingredientId))
    && (forall r | r in t.receipts ::
          HasIngredient(t, r.storeId, r.ingredientId) && (r.supplierId != "" ==> HasSupplier(t, r.storeId, r.supplierId)))
  }

  /** Rows are only ever added. */
  ghost predicate Extends(n: Tables, t: Tables) {
    && t.stores <= n.stores && t.ingredients <= n.ingredients && t.suppliers <= n.suppliers && t.products <= n.products
    && t.terms <= n.terms && t.lots <= n.lots && t.movements <= n.movements
    && t.sales <= n.sales && t.usages <= n.usages && t.receipts <= n.receipts
    && t.settings.Keys <= n.settings.Keys && t.calendar.Keys <= n.calendar.Keys
  }

  lemma StepExtends(norms: Norms, t: Tables, w: Write)
    ensures Extends(Next(norms, t, w), t)
  {
    hide HasIngredient, HasSupplier, HasProduct, HasLot;
  }

  lemma LookupsGrow(n: Tables, t: Tables)
    requires Extends(n, t)
    ensures forall s, id :: HasIngredient(t, s, id) ==> HasIngredient(n, s, id)
    ensures forall s, id :: HasSupplier(t, s, id) ==> HasSupplier(n, s, id)
    ensures forall s, id :: HasProduct(t, s, id) ==> HasProduct(n, s, id)
    ensures forall s, id :: HasLot(t, s, id) ==> HasLot(n, s, id)
  {
    assert forall r | r in t.ingredients :: r in n.ingredients;
    assert forall r | r in t.suppliers :: r in n.suppliers;
    assert forall r | r in t.products :: r in n.products;
    assert forall r | r in t.lots :: r in n.lots;
  }

  /** The new row, if it refers to others, refers within its store; lots, movements and the rest are otherwise as before. */
  lemma InventoryConsistent(norms: Norms, t: Tables, w: Write)
    requires Consistent(t) && (w.AddLot? || w.AddMovement? || w.AddTerm?)
    ensures Consistent(Next(norms, t, w))
  {
    hide HasIngredient, HasSupplier, HasProduct, HasLot, Extends;
    StepExtends(norms, t, w);
    LookupsGrow(Next(norms, t, w), t);
    if w.AddLot? { LotStaysUnique(norms, t, w.lot); }
  }

  lemma HistoryConsistent(norms: Norms, t: Tables, w: Write)
    requires Consistent(t) && (w.AddSale? || w.AddUsage? || w.AddReceipt?)
    ensures Consistent(Next(norms, t, w))
  {
    hide HasIngredient, HasSupplier, HasProduct, HasLot, Extends;
    StepExtends(norms, t, w);
    LookupsGrow(Next(norms, t, w), t);
  }

  predicate IsCatalogWrite(w: Write) {
    w.AddStore? || w.AddIngredient? || w.AddSupplier? || w.AddProduct? || w.UpsertSettings? || w.UpsertCalendar?
  }

  lemma CatalogConsistent(norms: Norms, t: Tables, w: Write)
    requires Consistent(t) && IsCatalogWrite(w)
    ensures Consistent(Next(norms, t, w))
  {
    hide HasIngredient, HasSupplier, HasProduct, HasLot, Extends;
    StepExtends(norms, t, w);
    LookupsGrow(Next(norms, t, w), t);
  }

  /** Every write keeps the references within their stores. */
  lemma StepConsistent(norms: Norms, t: Tables, w: Write)
    requires Consistent(t)
    ensures Consistent(Next(norms, t, w))
  {
    hide Consistent, Next;
    if w.AddLot? || w.AddMovement? || w.AddTerm? {
      InventoryConsistent(norms, t, w);
    } else if w.AddSale? || w.AddUsage? || w.AddReceipt? {
      HistoryConsistent(norms, t, w);
    } else {
      CatalogConsistent(norms, t, w);
    }
  }

  lemma LotStaysUnique(norms: Norms, t: Tables, r: Lot)
    requires UniqueLots(t.lots)
    ensures UniqueLots(Next(norms, t, AddLot(r)).lots)
  {
    hide HasIngredient, HasSupplier;
    if !(exists x | x in t.lots :: x.id == r.id) {
      assert forall i | 0 <= i < |t.lots| :: t.lots[i] in t.lots;
    }
  }

  // ---------- balances ----------

  predicate Moves(m: Movement, storeId: string, lotId: string) {
    m.storeId == storeId && m.lotId == lotId
  }

  /** coalesce(sum(quantity_delta), 0) over the movements of a lot; units are not looked at */
  function Balance(movements: seq<Movement>, storeId: string, lotId: string): real {
    if movements == [] then 0.0
    else
      var m := movements[|movements| - 1];
      Balance(movements[..|movements| - 1], storeId, lotId) + (if Moves(m, storeId, lotId) then m.delta else 0.0)
  }

  function Deltas(movements: seq<Movement>): real {
    if movements == [] then 0.0 else Deltas(movements[..|movements| - 1]) + movements[|movements| - 1].delta
  }

  function Balances(movements: seq<Movement>, lots: seq<Lot>): real {
    if lots == [] then 0.0 else Balance(movements, lots[0].storeId, lots[0].id) + Balances(movements, lots[1..])
  }

  lemma BalanceAppend(movements: seq<Movement>, m: Movement, storeId: string, lotId: string)
    ensures Balance(movements + [m], storeId, lotId)
         == Balance(movements, storeId, lotId) + (if Moves(m, storeId, lotId) then m.delta else 0.0)
  {
    assert (movements + [m])[..|movements|] == movements;
  }

  /** One more movement raises the sum of balances by its delta when its lot is listed once, and not otherwise. */
  lemma {:induction false} BalancesAppend(movements: seq<Movement>, m: Movement, lots: seq<Lot>)
    requires UniqueLots(lots)
    ensures Balances(movements + [m], lots) == Balances(movements, lots)
         + (if exists l :: l in lots && Moves(m, l.storeId, l.id) then m.delta else 0.0)
  {
    hide Balance;
    if lots != [] {
      BalanceAppend(movements, m, lots[0].storeId, lots[0].id);
      BalancesAppend(movements, m, lots[1..]);
      assert lots == [lots[0]] + lots[1..];
      assert forall l | l in lots[1..] :: l.id != lots[0].id;
    }
  }

  lemma {:induction false} NoMovementsNoBalance(lots: seq<Lot>)
    ensures Balances([], lots) == 0.0
  {
    if lots != [] { NoMovementsNoBalance(lots[1..]); }
  }

  lemma {:induction false} BalancesAreDeltas(movements: seq<Movement>, lots: seq<Lot>)
    requires UniqueLots(lots)
    requires forall m | m in movements :: exists l :: l in lots && Moves(m, l.storeId, l.id)
    ensures Balances(movements, lots) == Deltas(movements)
  {
    if movements == [] {
      NoMovementsNoBalance(lots);
    } else {
      var front, m := movements[..|movements| - 1], movements[|movements| - 1];
      assert movements == front + [m];
      assert forall x | x in front :: x in movements;
      BalancesAreDeltas(front, lots);
      BalancesAppend(front, m, lots);
      assert m in movements;
    }
  }

  /** Nothing is lost between lots: all balances add up to all deltas. */
  lemma BalancesConserve(t: Tables)
    requires Consistent(t)
    ensures Balances(t.movements, t.lots) == Deltas(t.movements)
  {
    hide Balances, Deltas, HasIngredient, HasSupplier;
    forall m | m in t.movements
      ensures exists l :: l in t.lots && Moves(m, l.storeId, l.id)
    {
      assert HasLot(t, m.storeId, m.lotId);
    }
    BalancesAreDeltas(t.movements, t.lots);
  }

  /** A recorded movement changes the balance of its own lot by its delta and no other balance. */
  lemma MovementChangesOneBalance(norms: Norms, t: Tables, r: Movement, storeId: string, lotId: string)
    requires Step(norms, t, AddMovement(r)).Done?
    ensures var n := Next(norms, t, AddMovement(r));
      && Balance(n.movements, storeId, lotId)
         == Balance(t.movements, storeId, lotId) + (if storeId == r.storeId && lotId == r.lotId then r.delta else 0.0)
      && n == t.(movements := n.movements)
  {
    hide Balance, HasLot;
    var unit := norms.unit(r.unit).value;
    BalanceAppend(t.movements, r.(unit := unit), storeId, lotId);
  }

  // ---------- store isolation ----------

  /** What one store can see of the tables. */
  datatype View = View(
    ingredients: seq<Ingredient>, suppliers: seq<Supplier>, products: seq<Product>, terms: seq<Term>,
    lots: seq<Lot>, movements: seq<Movement>, sales: seq<Sale>, usages: seq<Usage>, receipts: seq<Receipt>,
    settings: Option<Settings>, calendar: map<(string, int), Feature>)

  ghost function Rows<R>(rows: seq<R>, own: R -> bool): seq<R> {
    if rows == [] then []
    else Rows(rows[..|rows| - 1], own) + (if own(rows[|rows| - 1]) then [rows[|rows| - 1]] else [])
  }

  ghost function ViewOf(t: Tables, s: string): View {
    View(
      Rows(t.ingredients, (r: Ingredient) => r.storeId == s),
      Rows(t.suppliers, (r: Supplier) => r.storeId == s),
      Rows(t.products, (r: Product) => r.storeId == s),
      Rows(t.terms, (r: Term) => r.storeId == s),
      Rows(t.lots, (r: Lot) => r.storeId == s),
      Rows(t.movements, (r: Movement) => r.storeId == s),
      Rows(t.sales, (r: Sale) => r.storeId == s),
      Rows(t.usages, (r: Usage) => r.storeId == s),
      Rows(t.receipts, (r: Receipt) => r.storeId == s),
      if s in t.settings then Some(t.settings[s]) else None,
      map k | k in t.calendar && k.0 == s :: t.calendar[k])
  }

  lemma RowsAppend<R>(rows: seq<R>, r: R, own: R -> bool)
    requires !own(r)
    ensures Rows(rows + [r], own) == Rows(rows, own)
  {
    assert (rows + [r])[..|rows|] == rows;
  }

  lemma CatalogWritesStay(norms: Norms, t: Tables, w: Write, s: string)
    requires s != w.Store() && IsCatalogWrite(w)
    ensures ViewOf(Next(norms, t, w), s) == ViewOf(t, s)
  {
    hide Rows;
    if Step(norms, t, w).Done? {
      var n := Next(norms, t, w);
      match w {
        case AddIngredient(r) => RowsAppend(t.ingredients, n.ingredients[|t.ingredients|], (r: Ingredient) => r.storeId == s);
        case AddSupplier(r) => RowsAppend(t.suppliers, n.suppliers[|t.suppliers|], (r: Supplier) => r.storeId == s);
        case AddProduct(r) => RowsAppend(t.products, n.products[|t.products|], (r: Product) => r.storeId == s);
        case _ =>
      }
    }
  }

  lemma InventoryWritesStay(norms: Norms, t: Tables, w: Write, s: string)
    requires s != w.Store() && (w.AddLot? || w.AddMovement? || w.AddTerm?)
    ensures ViewOf(Next(norms, t, w), s) == ViewOf(t, s)
  {
    hide Rows, HasIngredient, HasSupplier, HasLot;
    if Step(norms, t, w).Done? {
      var n := Next(norms, t, w);
      match w {
        case AddTerm(r) => RowsAppend(t.terms, n.terms[|t.terms|], (r: Term) => r.storeId == s);
        case AddLot(r) => RowsAppend(t.lots, n.lots[|t.lots|], (r: Lot) => r.storeId == s);
        case AddMovement(r) => RowsAppend(t.movements, n.movements[|t.movements|], (r: Movement) => r.storeId == s);
        case _ =>
      }
    }
  }

  lemma HistoryWritesStay(norms: Norms, t: Tables, w: Write, s: string)
    requires s != w.Store() && (w.AddSale? || w.AddUsage? || w.AddReceipt?)
    ensures ViewOf(Next(norms, t, w), s) == ViewOf(t, s)
  {
    hide Rows, HasIngredient, HasSupplier, HasProduct;
    if Step(norms, t, w).Done? {
      var n := Next(norms, t, w);
      match w {
        case AddSale(r) => RowsAppend(t.sales, n.sales[|t.sales|], (r: Sale) => r.storeId == s);
        case AddUsage(r) => RowsAppend(t.usages, n.usages[|t.usages|], (r: Usage) => r.storeId == s);
        case AddReceipt(r) => RowsAppend(t.receipts, n.receipts[|t.receipts|], (r: Receipt) => r.storeId == s);
        case _ =>
      }
    }
  }

  /** A write of one store leaves everything another store sees as it was. */
  lemma WritesStayInTheirStore(norms: Norms, t: Tables, w: Write, s: string)
    requires s != w.Store()
    ensures ViewOf(Next(norms, t, w), s) == ViewOf(t, s)
  {
    hide ViewOf, Next;
    if w.AddLot? || w.AddMovement? || w.AddTerm? {
      InventoryWritesStay(norms, t, w, s);
    } else if w.AddSale? || w.AddUsage? || w.AddReceipt? {
      HistoryWritesStay(norms, t, w, s);
    } else {
      CatalogWritesStay(norms, t, w, s);
    }
  }

  // ---------- whole runs ----------

  datatype Op = Do(write: Write) | Commit | Rollback

  /** The database, what the open transaction sees, and whether the unit of work was committed. */
  datatype State = State(database: Tables, view: Tables, committed: bool)

  function Apply(norms: Norms, st: State, op: Op): State {
    match op
    case Do(w) => st.(view := Next(norms, st.view, w))
    case Commit => State(st.view, st.view, true)
    case Rollback => st.(view := st.database)
  }

  function Run(norms: Norms, st: State, ops: seq<Op>): State {
    if ops == [] then st else Apply(norms, Run(norms, st, ops[..|ops| - 1]), ops[|ops| - 1])
  }

  function Entered(database: Tables): State {
    State(database, database, false)
  }

  /** session.close(): whatever is pending is discarded */
  function Closed(st: State): State {
    st.(view := st.database)
  }

  /** __exit__: roll back after an exception or without a commit, then close */
  function Exited(norms: Norms, st: State, exceptional: bool): State {
    Closed(if exceptional || !st.committed then Apply(norms, st, Rollback) else st)
  }

  /** In every state of every run references stay within their stores. */
  lemma {:induction false} RunsStayConsistent(norms: Norms, st: State, ops: seq<Op>)
    requires Consistent(st.database) && Consistent(st.view)
    ensures var r := Run(norms, st, ops); Consistent(r.database) && Consistent(r.view)
  {
    hide Consistent, Next;
    if ops != [] {
      var front := ops[..|ops| - 1];
      RunsStayConsistent(norms, st, front);
      if ops[|ops| - 1].Do? { StepConsistent(norms, Run(norms, st, front).view, ops[|ops| - 1].write); }
    }
  }

  /** From an empty database, in every state of every run: all balances add up to all deltas, pending or committed. */
  lemma RunsConserve(norms: Norms, ops: seq<Op>)
    ensures var r := Run(norms, Entered(EMPTY), ops);
      && Consistent(r.database) && Consistent(r.view)
      && Balances(r.view.movements, r.view.lots) == Deltas(r.view.movements)
      && Balances(r.database.movements, r.database.lots) == Deltas(r.database.movements)
  {
    assert Consistent(EMPTY);
    RunsStayConsistent(norms, Entered(EMPTY), ops);
    var r := Run(norms, Entered(EMPTY), ops);
    BalancesConserve(r.view);
    BalancesConserve(r.database);
  }

  /** The writes a run has committed, and those pending since: a rollback forgets the pending ones. */
  datatype Log = Log(committed: seq<Write>, pending: seq<Write>)

  ghost function LogOf(ops: seq<Op>): Log {
    if ops == [] then Log([], []) else Logged(LogOf(ops[..|ops| - 1]), ops[|ops| - 1])
  }

  ghost function Replay(norms: Norms, t: Tables, writes: seq<Write>): Tables {
    if writes == [] then t else Next(norms, Replay(norms, t, writes[..|writes| - 1]), writes[|writes| - 1])
  }

  lemma ReplayAppend(norms: Norms, t: Tables, writes: seq<Write>, w: Write)
    ensures Replay(norms, t, writes + [w]) == Next(norms, Replay(norms, t, writes), w)
  {
    assert (writes + [w])[..|writes|] == writes;
  }

  /** The database is the entry state with exactly the committed writes replayed in order; the transaction sees the pending ones too. */
  lemma {:induction false} RunIsReplay(norms: Norms, database: Tables, ops: seq<Op>)
    ensures var r, log := Run(norms, Entered(database), ops), LogOf(ops);
      && r.database == Replay(norms, database, log.committed)
      && r.view == Replay(norms, database, log.committed + log.pending)
      && (r.committed <==> Commit in ops)
  {
    if ops != [] {
      var front := ops[..|ops| - 1];
      RunIsReplay(norms, database, front);
      assert ops == front + [ops[|ops| - 1]];
      ReplayStep(norms, database, Run(norms, Entered(database), front), LogOf(front), ops[|ops| - 1]);
    }
  }

  ghost function Logged(log: Log, op: Op): Log {
    match op
    case Do(w) => log.(pending := log.pending + [w])
    case Commit => Log(log.committed + log.pending, [])
    case Rollback => log.(pending := [])
  }

  lemma ReplayStep(norms: Norms, database: Tables, st: State, log: Log, op: Op)
    requires st.database == Replay(norms, database, log.committed)
    requires st.view == Replay(norms, database, log.committed + log.pending)
    ensures var n, l := Apply(norms, st, op), Logged(log, op);
      && n.database == Replay(norms, database, l.committed)
      && n.view == Replay(norms, database, l.committed + l.pending)
  {
    hide Next, Replay;
    match op {
      case Do(w) =>
        ReplayAppend(norms, database, log.committed + log.pending, w);
        assert log.committed + (log.pending + [w]) == log.committed + log.pending + [w];
      case Commit =>
        assert log.committed + log.pending + [] == log.committed + log.pending;
      case Rollback =>
        assert log.committed + [] == log.committed;
    }
  }

  /** Number of operations before the last commit, None without one. */
  function BeforeLastCommit(ops: seq<Op>): (n: Option<nat>)
    ensures n.Some? ==> n.value < |ops| && ops[n.value] == Commit
  {
    if ops == [] then None
    else if ops[|ops| - 1] == Commit then Some(|ops| - 1)
    else BeforeLastCommit(ops[..|ops| - 1])
  }

  /**
   Whatever happens in a unit of work, and however it is left, the database ends as the transaction saw it
   at the last commit, or as it was on entry; and nothing stays pending.
   */
  lemma {:induction false} UnitEndsAtLastCommit(norms: Norms, database: Tables, ops: seq<Op>, exceptional: bool)
    ensures var end := Exited(norms, Run(norms, Entered(database), ops), exceptional);
      && end.view == end.database
      && end.database == match BeforeLastCommit(ops)
         case None => database
         case Some(n) => Run(norms, Entered(database), ops[..n]).view
  {
    hide Next;
    if ops != [] {
      var front := ops[..|ops| - 1];
      UnitEndsAtLastCommit(norms, database, front, exceptional);
      if ops[|ops| - 1] != Commit && BeforeLastCommit(front).Some? {
        var n := BeforeLastCommit(front).value;
        assert ops[..n] == front[..n];
      }
    }
  }
}
