/** When a write is accepted, what it adds, and what rows of a store may refer to, said of the rows themselves. */
module LedgerLaws {
  import opened Text
  import opened Ledger

  // ---------- rows of a store ----------

  /** Row `i` is the store's ingredient with this id; likewise below. */
  ghost predicate Stocks(t: Tables, store: string, id: string, i: nat) {
    i < |t.ingredients| && t.ingredients[i].id == id && t.ingredients[i].storeId == store
  }

  ghost predicate Supplies(t: Tables, store: string, id: string, i: nat) {
    i < |t.suppliers| && t.suppliers[i].id == id && t.suppliers[i].storeId == store
  }

  ghost predicate Sells(t: Tables, store: string, id: string, i: nat) {
    i < |t.products| && t.products[i].id == id && t.products[i].storeId == store
  }

  ghost predicate Holds(t: Tables, store: string, id: string, i: nat) {
    i < |t.lots| && t.lots[i].id == id && t.lots[i].storeId == store
  }

  ghost predicate Ingredients(t: Tables, store: string, id: string) {
    exists i: nat :: Stocks(t, store, id, i)
  }

  ghost predicate Suppliers(t: Tables, store: string, id: string) {
    exists i: nat :: Supplies(t, store, id, i)
  }

  ghost predicate Products(t: Tables, store: string, id: string) {
    exists i: nat :: Sells(t, store, id, i)
  }

  ghost predicate Lots(t: Tables, store: string, id: string) {
    exists i: nat :: Holds(t, store, id, i)
  }

  lemma RowsIff(t: Tables, store: string, id: string)
    ensures HasIngredient(t, store, id) <==> Ingredients(t, store, id)
    ensures HasSupplier(t, store, id) <==> Suppliers(t, store, id)
    ensures HasProduct(t, store, id) <==> Products(t, store, id)
    ensures HasLot(t, store, id) <==> Lots(t, store, id)
  {
    if HasIngredient(t, store, id) {
      var r :| r in t.ingredients && r.storeId == store && r.id == id;
      var i: nat :| i < |t.ingredients| && t.ingredients[i] == r;
      assert Stocks(t, store, id, i);
    }
    if HasSupplier(t, store, id) {
      var r :| r in t.suppliers && r.storeId == store && r.id == id;
      var i: nat :| i < |t.suppliers| && t.suppliers[i] == r;
      assert Supplies(t, store, id, i);
    }
    if HasProduct(t, store, id) {
      var r :| r in t.products && r.storeId == store && r.id == id;
      var i: nat :| i < |t.products| && t.products[i] == r;
      assert Sells(t, store, id, i);
    }
    if HasLot(t, store, id) {
      var r :| r in t.lots && r.storeId == store && r.id == id;
      var i: nat :| i < |t.lots| && t.lots[i] == r;
      assert Holds(t, store, id, i);
    }
  }

  // ---------- when a write is accepted ----------

  /** The store is known, or every row that the write refers to is one of the store's. */
  ghost predicate Refers(t: Tables, w: Write) {
    match w
    case AddStore(_) => true
    case AddIngredient(r) => r.storeId in t.stores
    case AddSupplier(r) => r.storeId in t.stores
    case AddProduct(r) => r.storeId in t.stores
    case AddTerm(r) => Suppliers(t, r.storeId, r.supplierId) && Ingredients(t, r.storeId, r.ingredientId)
    case AddLot(r) =>
      Ingredients(t, r.storeId, r.ingredientId) && (r.supplierId == "" || Suppliers(t, r.storeId, r.supplierId))
    case AddMovement(r) => Lots(t, r.storeId, r.lotId)
    case AddSale(r) => Products(t, r.storeId, r.productId)
    case AddUsage(r) => Ingredients(t, r.storeId, r.ingredientId)
    case AddReceipt(r) =>
      Ingredients(t, r.storeId, r.ingredientId) && (r.supplierId == "" || Suppliers(t, r.storeId, r.supplierId))
    case UpsertSettings(s, _) => s in t.stores
    case UpsertCalendar(s, _, _) => s in t.stores
  }

  /** Names and units can be normalised. */
  predicate Readable(norms: Norms, w: Write) {
    match w
    case AddIngredient(r) => norms.name(r.name).Some? && norms.unit(r.baseUnit).Some?
    case AddSupplier(r) => norms.name(r.name).Some?
    case AddProduct(r) => norms.name(r.name).Some?
    case AddTerm(r) => norms.unit(r.unit).Some?
    case AddLot(r) => norms.unit(r.unit).Some?
    case AddMovement(r) => norms.unit(r.unit).Some?
    case AddUsage(r) => norms.unit(r.unit).Some?
    case AddReceipt(r) => norms.unit(r.unit).Some?
    case _ => true
  }

  /** The primary key of the new row is taken, in whatever store. */
  ghost predicate KeyTaken(t: Tables, w: Write) {
    match w
    case AddStore(s) => s in t.stores
    case AddIngredient(r) => exists i | 0 <= i < |t.ingredients| :: t.ingredients[i].id == r.id
    case AddSupplier(r) => exists i | 0 <= i < |t.suppliers| :: t.suppliers[i].id == r.id
    case AddProduct(r) => exists i | 0 <= i < |t.products| :: t.products[i].id == r.id
    case AddLot(r) => exists i | 0 <= i < |t.lots| :: t.lots[i].id == r.id
    case AddMovement(r) => exists i | 0 <= i < |t.movements| :: t.movements[i].id == r.id
    case _ => false
  }

  predicate NamesStore(w: Write) {
    w.AddIngredient? || w.AddSupplier? || w.AddProduct? || w.UpsertSettings? || w.UpsertCalendar?
  }

  lemma TakenIff(t: Tables, w: Write)
    ensures w.AddIngredient? ==> (KeyTaken(t, w) <==> exists x | x in t.ingredients :: x.id == w.ingredient.id)
    ensures w.AddSupplier? ==> (KeyTaken(t, w) <==> exists x | x in t.suppliers :: x.id == w.supplier.id)
    ensures w.AddProduct? ==> (KeyTaken(t, w) <==> exists x | x in t.products :: x.id == w.product.id)
    ensures w.AddLot? ==> (KeyTaken(t, w) <==> exists x | x in t.lots :: x.id == w.lot.id)
    ensures w.AddMovement? ==> (KeyTaken(t, w) <==> exists x | x in t.movements :: x.id == w.movement.id)
  {}

  /** A write goes through exactly when it refers to rows of its store, is readable and its key is free; else the error says why. */
  lemma WriteAcceptedIff(norms: Norms, t: Tables, w: Write)
    ensures Step(norms, t, w).Done? <==> Refers(t, w) && Readable(norms, w) && !KeyTaken(t, w)
    ensures Step(norms, t, w) == Failed(StoreNotFound) <==> NamesStore(w) && !Refers(t, w)
    ensures Step(norms, t, w) == Failed(IntegrityError) <==> Refers(t, w) && Readable(norms, w) && KeyTaken(t, w)
    ensures Step(norms, t, w) == Failed(ValidationError)
       <==> (Refers(t, w) && !Readable(norms, w)) || (!Refers(t, w) && !NamesStore(w))
  {
    hide HasIngredient, HasSupplier, HasProduct, HasLot, Ingredients, Suppliers, Products, Lots, KeyTaken;
    TakenIff(t, w);
    match w {
      case AddStore(s) => StoreTaken(t, w);
      case AddTerm(r) => RowsIff(t, r.storeId, r.supplierId); RowsIff(t, r.storeId, r.ingredientId); NeverTaken(t, w);
      case AddLot(r) => RowsIff(t, r.storeId, r.supplierId); RowsIff(t, r.storeId, r.ingredientId);
      case AddMovement(r) => RowsIff(t, r.storeId, r.lotId);
      case AddSale(r) => RowsIff(t, r.storeId, r.productId); NeverTaken(t, w);
      case AddUsage(r) => RowsIff(t, r.storeId, r.ingredientId); NeverTaken(t, w);
      case AddReceipt(r) => RowsIff(t, r.storeId, r.supplierId); RowsIff(t, r.storeId, r.ingredientId); NeverTaken(t, w);
      case UpsertSettings(_, _) => NeverTaken(t, w);
      case UpsertCalendar(_, _, _) => NeverTaken(t, w);
      case _ =>
    }
  }

  lemma StoreTaken(t: Tables, w: Write)
    requires w.AddStore?
    ensures KeyTaken(t, w) <==> w.storeId in t.stores
  {}

  lemma NeverTaken(t: Tables, w: Write)
    requires w.AddTerm? || w.AddSale? || w.AddUsage? || w.AddReceipt? || w.UpsertSettings? || w.UpsertCalendar?
    ensures !KeyTaken(t, w)
  {}

  // ---------- what a write changes ----------

  /** All tables but the one the write is about are as before. */
  ghost predicate OnlyItsTable(t: Tables, n: Tables, w: Write) {
    && (!w.AddStore? ==> n.stores == t.stores) && (!w.AddIngredient? ==> n.ingredients == t.ingredients)
    && (!w.AddSupplier? ==> n.suppliers == t.suppliers) && (!w.AddProduct? ==> n.products == t.products)
    && (!w.AddTerm? ==> n.terms == t.terms) && (!w.AddLot? ==> n.lots == t.lots)
    && (!w.AddMovement? ==> n.movements == t.movements) && (!w.AddSale? ==> n.sales == t.sales)
    && (!w.AddUsage? ==> n.usages == t.usages) && (!w.AddReceipt? ==> n.receipts == t.receipts)
    && (!w.UpsertSettings? ==> n.settings == t.settings) && (!w.UpsertCalendar? ==> n.calendar == t.calendar)
  }

  /** The row that a write adds: the one given, with its name and unit normalised. */
  ghost predicate AddsRow(norms: Norms, t: Tables, n: Tables, w: Write) {
    match w
    case AddStore(s) => forall x :: x in n.stores <==> x in t.stores || x == s
    case AddIngredient(r) =>
      exists a, b :: norms.name(r.name) == Some(a) && norms.unit(r.baseUnit) == Some(b)
        && n.ingredients == t.ingredients + [Ingredient(r.id, r.storeId, a, b)]
    case AddSupplier(r) => exists a :: norms.name(r.name) == Some(a) && n.suppliers == t.suppliers + [Supplier(r.id, r.storeId, a)]
    case AddProduct(r) => exists a :: norms.name(r.name) == Some(a) && n.products == t.products + [Product(r.id, r.storeId, a)]
    case AddTerm(r) =>
      exists b :: norms.unit(r.unit) == Some(b) && n.terms == t.terms + [Term(r.id, r.storeId, r.supplierId, r.ingredientId, b)]
    case AddLot(r) =>
      exists b :: norms.unit(r.unit) == Some(b) && n.lots == t.lots + [Lot(r.id, r.storeId, r.ingredientId, r.supplierId, b)]
    case AddMovement(r) =>
      exists b :: norms.unit(r.unit) == Some(b) && n.movements == t.movements + [Movement(r.id, r.storeId, r.lotId, r.delta, b)]
    case AddSale(r) => n.sales == t.sales + [r]
    case AddUsage(r) =>
      exists b :: norms.unit(r.unit) == Some(b) && n.usages == t.usages + [Usage(r.id, r.storeId, r.ingredientId, r.quantity, b)]
    case AddReceipt(r) =>
      exists b :: norms.unit(r.unit) == Some(b)
        && n.receipts == t.receipts + [Receipt(r.id, r.storeId, r.ingredientId, r.supplierId, r.quantity, b)]
    case UpsertSettings(s, given) =>
      && n.settings.Keys == t.settings.Keys + {s} && (forall x | x in t.settings && x != s :: n.settings[x] == t.settings[x])
      && var kept := n.settings[s];
         && kept.budget == given.budget && kept.horizon == given.horizon && kept.strategy == given.strategy
         && kept.safetyPolicy == given.safetyPolicy
         && kept.version == (if s in t.settings then t.settings[s].version + 1 else given.version)
    case UpsertCalendar(s, day, feature) =>
      && n.calendar.Keys == t.calendar.Keys + {(s, day)} && n.calendar[(s, day)] == feature
      && forall x | x in t.calendar && x != (s, day) :: n.calendar[x] == t.calendar[x]
  }

  /** An accepted write changes its own table, by its own row, and nothing else; a refused one changes nothing. */
  lemma WriteAdds(norms: Norms, t: Tables, w: Write)
    ensures var n := Next(norms, t, w);
      if Step(norms, t, w).Done? then OnlyItsTable(t, n, w) && AddsRow(norms, t, n, w) else n == t
  {
    hide HasIngredient, HasSupplier, HasProduct, HasLot;
  }

  // ---------- references ----------

  /** No row refers outside its store. */
  ghost predicate Separate(t: Tables) {
    && (forall r | r in t.lots ::
          Ingredients(t, r.storeId, r.ingredientId) && (r.supplierId == "" || Suppliers(t, r.storeId, r.supplierId)))
    && (forall r | r in t.movements :: Lots(t, r.storeId, r.lotId))
    && (forall r | r in t.terms :: Suppliers(t, r.storeId, r.supplierId) && Ingredients(t, r.storeId, r.ingredientId))
    && (forall r | r in t.sales :: Products(t, r.storeId, r.productId))
    && (forall r | r in t.usages :: Ingredients(t, r.storeId, r.ingredientId))
    && (forall r | r in t.receipts ::
          Ingredients(t, r.storeId, r.ingredientId) && (r.supplierId == "" || Suppliers(t, r.storeId, r.supplierId)))
  }

  lemma ConsistentIsSeparate(t: Tables)
    requires Consistent(t)
    ensures Separate(t)
  {
    hide HasIngredient, HasSupplier, HasProduct, HasLot, Ingredients, Suppliers, Products, Lots;
    forall store, id
      ensures HasIngredient(t, store, id) <==> Ingredients(t, store, id)
      ensures HasSupplier(t, store, id) <==> Suppliers(t, store, id)
      ensures HasProduct(t, store, id) <==> Products(t, store, id)
      ensures HasLot(t, store, id) <==> Lots(t, store, id)
    {
      RowsIff(t, store, id);
    }
  }

  /** From the empty database on no run ever leaves a row that refers outside its store, pending or committed. */
  lemma RunsStaySeparate(norms: Norms, ops: seq<Op>)
    ensures var r := Run(norms, Entered(EMPTY), ops); Separate(r.database) && Separate(r.view)
  {
    hide Run, Consistent, Separate;
    RunsConserve(norms, ops);
    var r := Run(norms, Entered(EMPTY), ops);
    ConsistentIsSeparate(r.database);
    ConsistentIsSeparate(r.view);
  }
}
