/** Product membership of non-spatial targets, collected from the spatial owners that bind them. */
module BindingIndex {
  import opened Wrappers
  import opened Sets
  import opened TimeZones
  import opened ArchiveWindow
  import opened ArchiveClock

  datatype Kind = Feature | Information

  /** GUIDs are numbered; zero is the empty GUID. */
  datatype Target = Target(kind: Kind, id: nat)

  /** Product names compare without case; this is the folded name. */
  type Product = string

  datatype Field = Missing | NullField | Unreadable | Id(id: nat)
  datatype Item = NotAnObject | Binding(isAssociation: bool, informationId: Field, featureId: Field)
  datatype Document = Blank | NotJson | NullRoot | NotAnArray | Items(items: seq<Item>)

  datatype BindingError = InvalidBindings | OwnerNotMatched | OwnersNotReread | BoundaryRejected(reason: ClockError)

  /** The target one binding names; None when it names none the exporter would emit. */
  function ReadItem(item: Item, kind: Kind): Result<Option<Target>, BindingError> {
    match item
    case NotAnObject => Failure(InvalidBindings)
    case Binding(isAssociation, informationId, featureId) =>
      if kind.Feature? && isAssociation then Success(None) else
        match (if kind.Information? then informationId else featureId)
        case Missing => Success(None)
        case NullField => Success(None)
        case Unreadable => Failure(InvalidBindings)
        case Id(id) => if id == 0 then Failure(InvalidBindings) else Success(Some(Target(kind, id)))
  }

  predicate Readable(doc: Document, kind: Kind) {
    match doc
    case Items(items) => forall i | 0 <= i < |items| :: ReadItem(items[i], kind).Success?
    case NotJson => false
    case NotAnArray => false
    case _ => true
  }

  /** The targets a readable document names. */
  function Named(doc: Document, kind: Kind): set<Target> {
    if doc.Items? then
      set i | 0 <= i < |doc.items| && ReadItem(doc.items[i], kind).Success? && ReadItem(doc.items[i], kind).value.Some?
        :: ReadItem(doc.items[i], kind).value.value
    else {}
  }

  /** The item binds the target: information by its own identifier, a feature by any role but an association. */
  ghost predicate Binds(item: Item, t: Target) {
    && item.Binding?
    && match t.kind
       case Information => item.informationId == Id(t.id)
       case Feature => item.featureId == Id(t.id) && !item.isAssociation
  }

  ghost predicate BindsIn(doc: Document, t: Target) {
    doc.Items? && exists item :: item in doc.items && Binds(item, t)
  }

  /** An item whose reading cannot be told: no object, or a field in question that is no GUID or the empty one. */
  ghost predicate IsUnusable(item: Item, kind: Kind) {
    match item
    case NotAnObject => true
    case Binding(isAssociation, informationId, featureId) =>
      match kind
      case Information => informationId.Unreadable? || informationId == Id(0)
      case Feature => !isAssociation && (featureId.Unreadable? || featureId == Id(0))
  }

  ghost predicate IsBroken(doc: Document, kind: Kind) {
    doc.NotJson? || doc.NotAnArray? || (doc.Items? && exists item :: item in doc.items && IsUnusable(item, kind))
  }

  lemma ItemIsReadAsBound(item: Item, kind: Kind, t: Target)
    ensures ReadItem(item, kind).Success? <==> !IsUnusable(item, kind)
    ensures ReadItem(item, kind) == Success(Some(t)) <==> t.kind == kind && t.id != 0 && Binds(item, t)
  {
  }

  lemma ReadableUnlessBroken(doc: Document, kind: Kind)
    ensures Readable(doc, kind) <==> !IsBroken(doc, kind)
  {
    if doc.Items? {
      forall i | 0 <= i < |doc.items|
        ensures ReadItem(doc.items[i], kind).Success? <==> !IsUnusable(doc.items[i], kind)
      {
        ItemIsReadAsBound(doc.items[i], kind, Target(kind, 0));
      }
      if i :| 0 <= i < |doc.items| && IsUnusable(doc.items[i], kind) {
        assert doc.items[i] in doc.items;
      }
    }
  }

  /** What a document names are the targets its items bind; the empty GUID is never named. */
  lemma NamedAreBound(doc: Document, kind: Kind)
    ensures forall t: Target :: t in Named(doc, kind) <==> t.kind == kind && t.id != 0 && BindsIn(doc, t)
  {
    if doc.Items? {
      forall t: Target ensures t in Named(doc, kind) <==> t.kind == kind && t.id != 0 && BindsIn(doc, t) {
        forall i | 0 <= i < |doc.items|
          ensures ReadItem(doc.items[i], kind) == Success(Some(t)) <==>
                  t.kind == kind && t.id != 0 && Binds(doc.items[i], t)
        {
          ItemIsReadAsBound(doc.items[i], kind, t);
        }
      }
    }
  }

  lemma EmptyGuidIsUnusable(doc: Document, kind: Kind)
    ensures BindsIn(doc, Target(kind, 0)) ==> IsBroken(doc, kind)
  {
    if item :| doc.Items? && item in doc.items && Binds(item, Target(kind, 0)) {
      assert IsUnusable(item, kind);
    }
  }

  /** Reads exactly the targets the items bind, and fails exactly on a broken document. */
  method ReadTargets(doc: Document, kind: Kind) returns (r: Result<set<Target>, BindingError>)
    ensures r.Success? ==> forall t :: t in r.value <==> t.kind == kind && BindsIn(doc, t)
    ensures r.Failure? <==> IsBroken(doc, kind)
    ensures r == if Readable(doc, kind) then Success(Named(doc, kind)) else Failure(InvalidBindings)
  {
    ReadableUnlessBroken(doc, kind);
    if Readable(doc, kind) {
      NamedAreBound(doc, kind);
      EmptyGuidIsUnusable(doc, kind);
    }
    match doc {
      case Blank => return Success({});
      case NullRoot => return Success({});
      case NotJson => return Failure(InvalidBindings);
      case NotAnArray => return Failure(InvalidBindings);
      case Items(items) =>
        var result: set<Target> := {};
        for n := 0 to |items|
          invariant forall i | 0 <= i < n :: ReadItem(items[i], kind).Success?
          invariant result == Named(Items(items[..n]), kind)
        {
          var read := ReadItem(items[n], kind);
          if read.Failure? {
            return Failure(InvalidBindings);
          }
          assert items[..n + 1] == items[..n] + [items[n]];
          if read.value.Some? {
            result := result + {read.value.value};
            assert read.value.value in Named(Items(items[..n + 1]), kind) by { assert items[..n + 1][n] == items[n]; }
          }
          NamedGrows(items[..n], items[n], kind);
        }
        assert items[..|items|] == items;
        return Success(result);
    }
  }

  lemma NamedGrows(items: seq<Item>, item: Item, kind: Kind)
    requires ReadItem(item, kind).Success?
    ensures Named(Items(items + [item]), kind) ==
            Named(Items(items), kind) + if ReadItem(item, kind).value.Some? then {ReadItem(item, kind).value.value}
              else {}
  {
    var more := items + [item];
    forall t | t in Named(Items(items), kind) ensures t in Named(Items(more), kind) {
      var i :| 0 <= i < |items| && ReadItem(items[i], kind) == Success(Some(t));
      assert more[i] == items[i];
    }
    assert more[|items|] == item;
  }

  /** One archived spatial row: its lifetime, its binding columns and the outcome of matching it to products. */
  datatype Owner = Owner(oid: nat, interval: Interval, information: Document, features: Document,
                         matched: Result<seq<Product>, BindingError>)

  predicate AtAnEndpoint(i: Interval, w: Window) {
    i.Contains(w.since) || i.Contains(w.through)
  }

  predicate Wants(targets: set<Target>, kind: Kind) {
    exists t :: t in targets && t.kind == kind
  }

  /** Both binding columns can be read, where a column of a kind nobody asked for is not looked at. */
  predicate DocumentsReadable(targets: set<Target>, information: Document, features: Document) {
    && (Wants(targets, Information) ==> Readable(information, Information))
    && (Wants(targets, Feature) ==> Readable(features, Feature))
  }

  /** The changed targets a row binds. */
  function Bound(targets: set<Target>, information: Document, features: Document): set<Target> {
    (Named(information, Information) + Named(features, Feature)) * targets
  }

  function Lookup(m: map<Product, set<Target>>, p: Product): set<Target> {
    if p in m then m[p] else {}
  }

  /** Adds the targets to the entry of every listed product. */
  function Attach(m: map<Product, set<Target>>, products: seq<Product>, found: set<Target>): map<Product, set<Target>> {
    if products == [] then m else
      var rest := Attach(m, products[..|products| - 1], found);
      var last := products[|products| - 1];
      rest[last := Lookup(rest, last) + found]
  }

  lemma {:induction false} AttachLookup(m: map<Product, set<Target>>, products: seq<Product>, found: set<Target>,
                                        p: Product)
    ensures Lookup(Attach(m, products, found), p) == Lookup(m, p) + if p in products then found else {}
    decreases |products|
  {
    if products != [] {
      AttachLookup(m, products[..|products| - 1], found, p);
      assert products == products[..|products| - 1] + [products[|products| - 1]];
    }
  }

  ghost predicate NoEmptyEntry(m: map<Product, set<Target>>) {
    forall p | p in m :: m[p] != {}
  }

  lemma {:induction false} AttachKeepsEntries(m: map<Product, set<Target>>, products: seq<Product>, found: set<Target>)
    requires NoEmptyEntry(m) && found != {}
    ensures NoEmptyEntry(Attach(m, products, found))
    decreases |products|
  {
    if products != [] {
      AttachKeepsEntries(m, products[..|products| - 1], found);
    }
  }

  class ArchiveBindingIndex {
    const targets: set<Target>
    const window: Window
    const hasInformation: bool
    const hasFeatures: bool
    var affected: map<Product, set<Target>>
    var current: map<Product, set<Target>>

    ghost predicate Valid()
      reads this
    {
      && hasInformation == Wants(targets, Information) && hasFeatures == Wants(targets, Feature)
      && NoEmptyEntry(affected) && NoEmptyEntry(current)
    }

    constructor (changedTargets: set<Target>, w: Window)
      ensures Valid() && targets == changedTargets && window == w
      ensures affected == map[] && current == map[]
    {
      targets := changedTargets;
      window := w;
      hasInformation := exists t :: t in changedTargets && t.kind == Information;
      hasFeatures := exists t :: t in changedTargets && t.kind == Feature;
      affected, current := map[], map[];
    }

    predicate IsCurrent(product: Product, target: Target)
      reads this
    {
      product in current && target in current[product]
    }

    /** A row away from both endpoints is never parsed; otherwise exactly its changed targets are found. */
    method FindTargets(interval: Interval, information: Document, features: Document)
        returns (r: Result<set<Target>, BindingError>)
      requires Valid()
      ensures r ==
        if !AtAnEndpoint(interval, window) then Success({})
        else if DocumentsReadable(targets, information, features) then Success(Bound(targets, information, features))
        else Failure(InvalidBindings)
    {
      if !interval.Contains(window.since) && !interval.Contains(window.through) {
        return Success({});
      }
      var found, others: Result<set<Target>, BindingError> := Success({}), Success({});
      if hasInformation {
        found := ReadTargets(information, Information);
        if found.Failure? { return found; }
      }
      if hasFeatures {
        others := ReadTargets(features, Feature);
        if others.Failure? { return others; }
      }
      assert !hasInformation ==> Named(information, Information) * targets == {};
      assert !hasFeatures ==> Named(features, Feature) * targets == {};
      assert found.value * targets == Named(information, Information) * targets;
      assert others.value * targets == Named(features, Feature) * targets;
      assert (found.value + others.value) * targets == Bound(targets, information, features);
      r := Success((found.value + others.value) * targets);
    }

    /**
     * Attaches an owner's targets to its products; an owner without targets or away from both endpoints is not matched
     * at all.
     */
    method AddOwner(interval: Interval, found: set<Target>, matched: Result<seq<Product>, BindingError>)
        returns (r: Result<(), BindingError>)
      requires Valid()
      modifies this`affected, this`current
      ensures Valid()
      ensures var idle := !AtAnEndpoint(interval, window) || found == {};
              && r == (if idle || matched.Success? then Success(()) else Failure(matched.error))
              && affected ==
                   (if idle || matched.Failure? then old(affected) else Attach(old(affected), matched.value, found))
              && current == (if idle || matched.Failure? || !interval.Contains(window.through) then old(current)
                             else Attach(old(current), matched.value, found))
    {
      var after := interval.Contains(window.through);
      if (!interval.Contains(window.since) && !after) || found == {} {
        return Success(());
      }
      if matched.Failure? {
        return Failure(matched.error);
      }
      var products := matched.value;
      for n := 0 to |products|
        invariant affected == Attach(old(affected), products[..n], found)
        invariant current == if after then Attach(old(current), products[..n], found) else old(current)
      {
        var product := products[n];
        assert products[..n + 1][..n] == products[..n];
        affected := affected[product := Lookup(affected, product) + found];
        if after {
          current := current[product := Lookup(current, product) + found];
        }
      }
      assert products[..|products|] == products;
      AttachKeepsEntries(old(affected), products, found);
      AttachKeepsEntries(old(current), products, found);
      return Success(());
    }
  }

  /*************** The index that testing every archive version would build ***************/

  ghost function AffectedBy(targets: set<Target>, w: Window, o: Owner, p: Product): set<Target> {
    if AtAnEndpoint(o.interval, w) && o.matched.Success? && p in o.matched.value
    then Bound(targets, o.information, o.features) else {}
  }

  ghost function CurrentBy(targets: set<Target>, w: Window, o: Owner, p: Product): set<Target> {
    if o.interval.Contains(w.through) then AffectedBy(targets, w, o, p) else {}
  }

  ghost function AffectedByAny(targets: set<Target>, w: Window, owners: set<Owner>, p: Product): set<Target> {
    set o, t | o in owners && t in AffectedBy(targets, w, o, p) :: t
  }

  ghost function CurrentByAny(targets: set<Target>, w: Window, owners: set<Owner>, p: Product): set<Target> {
    set o, t | o in owners && t in CurrentBy(targets, w, o, p) :: t
  }

  /** The two dictionaries hold exactly what the given owner versions imply, product by product. */
  ghost predicate Indexes(affected: map<Product, set<Target>>, current: map<Product, set<Target>>,
                          targets: set<Target>, w: Window, owners: set<Owner>) {
    && (forall p :: Lookup(affected, p) == AffectedByAny(targets, w, owners, p))
    && (forall p :: Lookup(current, p) == CurrentByAny(targets, w, owners, p))
  }

  lemma IndexesOneMore(affected: map<Product, set<Target>>, current: map<Product, set<Target>>, targets: set<Target>,
                       w: Window, owners: set<Owner>,
                       o: Owner, affected': map<Product, set<Target>>, current': map<Product, set<Target>>)
    requires Indexes(affected, current, targets, w, owners)
    requires AtAnEndpoint(o.interval, w) && o.matched.Success?
    requires affected' == Attach(affected, o.matched.value, Bound(targets, o.information, o.features))
    requires current' == if o.interval.Contains(w.through)
      then Attach(current, o.matched.value, Bound(targets, o.information, o.features)) else current
    ensures Indexes(affected', current', targets, w, owners + {o})
  {
    forall p
      ensures Lookup(affected', p) == AffectedByAny(targets, w, owners + {o}, p)
      ensures Lookup(current', p) == CurrentByAny(targets, w, owners + {o}, p)
    {
      IndexOneMore(targets, w, owners, o, p);
      AttachLookup(affected, o.matched.value, Bound(targets, o.information, o.features), p);
      AttachLookup(current, o.matched.value, Bound(targets, o.information, o.features), p);
    }
  }

  ghost predicate Reread(rows: seq<Owner>, id: nat) {
    exists o :: o in rows && o.oid == id
  }

  ghost predicate UniqueIds(rows: seq<Owner>) {
    forall i, j | 0 <= i < j < |rows| :: rows[i].oid != rows[j].oid
  }

  predicate RowSelected(clock: Clock, w: Window, sinceFloor: int, throughFloor: int, o: Owner) {
    SelectsEndpoint(clock.storage.Local(o.interval.from), StoredEnd(clock.storage, o.interval),
                    sinceFloor, sinceFloor + TICKS_PER_SECOND, throughFloor, throughFloor + TICKS_PER_SECOND)
  }

  /** First pass over the lightweight binding columns: the selected rows that bind a changed target. */
  method CollectOwners(index: ArchiveBindingIndex, clock: Clock, sinceFloor: int, throughFloor: int, rows: seq<Owner>)
      returns (r: Result<map<nat, (Interval, set<Target>)>, BindingError>)
    requires index.Valid() && UniqueIds(rows)
    ensures r.Failure? <==> exists o ::
      o in rows && Rejects(index.targets, index.window, clock, sinceFloor, throughFloor, o)
    ensures r.Success? ==> CollectedFrom(r.value, index.targets, index.window, clock, sinceFloor, throughFloor, rows)
  {
    var owners: map<nat, (Interval, set<Target>)> := map[];
    for n := 0 to |rows|
      invariant forall o | o in rows[..n] :: !Rejects(index.targets, index.window, clock, sinceFloor, throughFloor, o)
      invariant CollectedFrom(owners, index.targets, index.window, clock, sinceFloor, throughFloor, rows[..n])
    {
      var row := rows[n];
      assert rows[..n + 1] == rows[..n] + [row];
      if RowSelected(clock, index.window, sinceFloor, throughFloor, row) {
        var found := index.FindTargets(row.interval, row.information, row.features);
        if found.Failure? {
          assert Rejects(index.targets, index.window, clock, sinceFloor, throughFloor, row);
          return Failure(found.error);
        }
        if found.value != {} {
          owners := owners[row.oid := (row.interval, found.value)];
        }
      }
    }
    assert rows[..|rows|] == rows;
    return Success(owners);
  }

  ghost predicate Rejects(targets: set<Target>, w: Window, clock: Clock, sinceFloor: int, throughFloor: int, o: Owner) {
    && RowSelected(clock, w, sinceFloor, throughFloor, o)
    && AtAnEndpoint(o.interval, w) && !DocumentsReadable(targets, o.information, o.features)
  }

  ghost predicate IsCandidate(targets: set<Target>, w: Window, clock: Clock, sinceFloor: int, throughFloor: int,
                              o: Owner) {
    && RowSelected(clock, w, sinceFloor, throughFloor, o)
    && AtAnEndpoint(o.interval, w) && Bound(targets, o.information, o.features) != {}
  }

  ghost predicate CollectedFrom(owners: map<nat, (Interval, set<Target>)>, targets: set<Target>, w: Window,
                                clock: Clock,
                                sinceFloor: int, throughFloor: int, rows: seq<Owner>) {
    && (forall o | o in rows :: o.oid in owners <==> IsCandidate(targets, w, clock, sinceFloor, throughFloor, o))
    && (forall o | o in rows && o.oid in owners ::
         owners[o.oid] == (o.interval, Bound(targets, o.information, o.features)))
    && (forall id | id in owners :: exists o :: o in rows && o.oid == id)
  }

  lemma IndexOneMore(targets: set<Target>, w: Window, owners: set<Owner>, o: Owner, p: Product)
    ensures AffectedByAny(targets, w, owners + {o}, p) ==
      AffectedByAny(targets, w, owners, p) + AffectedBy(targets, w, o, p)
    ensures CurrentByAny(targets, w, owners + {o}, p) ==
      CurrentByAny(targets, w, owners, p) + CurrentBy(targets, w, o, p)
  {
  }

  /** The rows of one batch. */
  ghost function Taken(rows: seq<Owner>, batch: set<nat>): (taken: set<Owner>)
    ensures forall o :: o in taken <==> o in rows && o.oid in batch
  {
    set o | o in rows && o.oid in batch
  }

  lemma TakenGrows(rows: seq<Owner>, n: nat, batch: set<nat>)
    requires n < |rows|
    ensures Taken(rows[..n + 1], batch) == Taken(rows[..n], batch) + if rows[n].oid in batch then {rows[n]} else {}
    ensures forall o | o in rows[..n + 1] :: o in rows[..n] || o == rows[n]
  {
    assert rows[..n + 1] == rows[..n] + [rows[n]];
  }

  /** Second pass over one batch of owner ids, in whatever order the refetch returns the rows. */
  method AddBatch(index: ArchiveBindingIndex, owners: map<nat, (Interval, set<Target>)>, batch: set<nat>,
                  rows: seq<Owner>, ghost done: set<Owner>)
      returns (r: Result<(), BindingError>, ghost done': set<Owner>)
    requires index.Valid() && Indexes(index.affected, index.current, index.targets, index.window, done)
      && batch <= owners.Keys
    requires forall o | o in rows && o.oid in owners ::
               owners[o.oid] == (o.interval, Bound(index.targets, o.information, o.features))
                 && AtAnEndpoint(o.interval, index.window)
               && owners[o.oid].1 != {}
    modifies index`affected, index`current
    ensures index.Valid()
    ensures r.Success? ==>
      Indexes(index.affected, index.current, index.targets, index.window, done') && done' == done + Taken(rows, batch)
    ensures r.Success? ==> forall id | id in batch :: Reread(rows, id)
    ensures r.Success? ==> forall o | o in rows && o.oid in batch :: o.matched.Success?
    ensures r.Failure? ==> (exists o :: o in rows && o.oid in batch && o.matched.Failure?)
                           || (exists id :: id in batch && !Reread(rows, id))
  {
    done' := done;
    var found: set<nat> := {};
    for n := 0 to |rows|
      invariant index.Valid() && Indexes(index.affected, index.current, index.targets, index.window, done')
      invariant done' == done + Taken(rows[..n], batch)
      invariant found <= batch && forall id :: id in found <==> id in batch && Reread(rows[..n], id)
      invariant forall o | o in rows[..n] && o.oid in batch :: o.matched.Success?
    {
      var row := rows[n];
      TakenGrows(rows, n, batch);
      assert row in rows[..n + 1];
      if row.oid in batch {
        found := found + {row.oid};
        ghost var affected, current := index.affected, index.current;
        r := index.AddOwner(owners[row.oid].0, owners[row.oid].1, row.matched);
        if r.Failure? {
          return;
        }
        IndexesOneMore(affected, current, index.targets, index.window, done', row, index.affected, index.current);
        done' := done' + {row};
      }
    }
    assert rows[..|rows|] == rows;
    if |found| != |batch| {
      MissingElement(found, batch);
      return Failure(OwnersNotReread), done';
    }
    SameSizeSubset(found, batch);
    return Success(()), done';
  }

  lemma MissingElement<T>(a: set<T>, b: set<T>)
    requires a <= b && |a| != |b|
    ensures exists x :: x in b && x !in a
  {
    assert b == a + (b - a);
    var x :| x in b - a;
  }

  /** The dictionary keys in batches of at most 256. */
  const BATCH := 256

  method AddBatches(index: ArchiveBindingIndex, owners: map<nat, (Interval, set<Target>)>, ids: seq<nat>,
                    rows: seq<Owner>)
      returns (r: Result<(), BindingError>)
    requires index.Valid() && index.affected == index.current == map[]
    requires forall id | id in ids :: id in owners
    requires forall i, j | 0 <= i < j < |ids| :: ids[i] != ids[j]
    requires forall o | o in rows && o.oid in owners ::
               owners[o.oid] == (o.interval, Bound(index.targets, o.information, o.features))
                 && AtAnEndpoint(o.interval, index.window)
               && owners[o.oid].1 != {}
    modifies index`affected, index`current
    ensures index.Valid()
    ensures r.Success? ==>
      Indexes(index.affected, index.current, index.targets, index.window, set o | o in rows && o.oid in ids)
    ensures r.Success? ==> forall id | id in ids :: Reread(rows, id)
    ensures r.Success? ==> forall o | o in rows && o.oid in ids :: o.matched.Success?
    ensures r.Failure? ==> (exists o :: o in rows && o.oid in ids && o.matched.Failure?)
                           || (exists id :: id in ids && !Reread(rows, id))
  {
    var n := 0;
    ghost var done: set<Owner> := {};
    while n < |ids|
      invariant 0 <= n <= |ids|
      invariant index.Valid() && done == set o | o in rows && o.oid in ids[..n]
      invariant Indexes(index.affected, index.current, index.targets, index.window, done)
      invariant forall id | id in ids[..n] :: Reread(rows, id)
      invariant forall o | o in rows && o.oid in ids[..n] :: o.matched.Success?
    {
      var next := if n + BATCH < |ids| then n + BATCH else |ids|;
      var batch := set id | id in ids[n..next];
      assert ids[..next] == ids[..n] + ids[n..next];
      r, done := AddBatch(index, owners, batch, rows, done);
      if r.Failure? {
        return;
      }
      forall id | id in ids[n..next] ensures Reread(rows, id) {
        assert id in batch;
      }
      n := next;
    }
    assert ids[..|ids|] == ids;
    return Success(());
  }

  /** Every row the index needs to know about, whatever the passes did with it. */
  lemma IrrelevantRowsAddNothing(targets: set<Target>, w: Window, all: set<Owner>, used: set<Owner>, p: Product)
    requires used <= all
    requires forall o | o in all && o !in used ::
      !AtAnEndpoint(o.interval, w) || Bound(targets, o.information, o.features) == {}
    ensures AffectedByAny(targets, w, all, p) == AffectedByAny(targets, w, used, p)
    ensures CurrentByAny(targets, w, all, p) == CurrentByAny(targets, w, used, p)
  {
    forall o, t | o in all && t in AffectedBy(targets, w, o, p) ensures o in used {
    }
  }

  /** A row the endpoint predicate leaves out is alive at neither bound. */
  lemma UnselectedRowsAreIdle(clock: Clock, w: Window, o: Owner)
    requires clock.storage.Valid()
    requires clock.ToQueryLowerBound(w).Success? && clock.ToQueryLowerBound(Window(w.through, w.through)).Success?
    requires clock.storage.Local(w.since) < OPEN_END && clock.storage.Local(w.through) < OPEN_END
    requires !RowSelected(clock, w, clock.ToQueryLowerBound(w).value,
                          clock.ToQueryLowerBound(Window(w.through, w.through)).value, o)
    ensures !AtAnEndpoint(o.interval, w)
  {
    if AtAnEndpoint(o.interval, w) {
      EndpointPredicateLosesNothing(clock, w, o.interval);
    }
  }

  /** A row alive at a bound was readable, and was collected exactly if it binds a changed target. */
  ghost predicate WasCollected(owners: map<nat, (Interval, set<Target>)>, targets: set<Target>, w: Window, o: Owner) {
    AtAnEndpoint(o.interval, w) ==>
      && DocumentsReadable(targets, o.information, o.features)
      && (o.oid in owners <==> Bound(targets, o.information, o.features) != {})
  }

  lemma EndpointRowsAreCollected(owners: map<nat, (Interval, set<Target>)>, targets: set<Target>, w: Window,
                                 clock: Clock,
                                 since: int, through: int, rows: seq<Owner>, o: Owner)
    requires clock.storage.Valid() && o in rows
    requires clock.ToQueryLowerBound(w) == Success(since)
      && clock.ToQueryLowerBound(Window(w.through, w.through)) == Success(through)
    requires clock.storage.Local(w.since) < OPEN_END && clock.storage.Local(w.through) < OPEN_END
    requires CollectedFrom(owners, targets, w, clock, since, through, rows)
      && !Rejects(targets, w, clock, since, through, o)
    ensures WasCollected(owners, targets, w, o)
  {
    if !RowSelected(clock, w, since, through, o) {
      UnselectedRowsAreIdle(clock, w, o);
    }
  }

  /** The re-read rows are the only ones that matter. */
  lemma RereadCoversAll(owners: map<nat, (Interval, set<Target>)>, targets: set<Target>, w: Window, ids: seq<nat>,
                        firstRead: seq<Owner>, secondRead: seq<Owner>)
    requires forall o, o' | o in firstRead && o' in secondRead && o.oid == o'.oid :: o == o'
    requires forall o | o in secondRead && o.oid in ids :: o in firstRead
    requires forall o | o in firstRead :: WasCollected(owners, targets, w, o)
    requires forall id :: id in ids <==> id in owners
    requires forall id | id in ids :: Reread(secondRead, id)
    ensures
      var all, used := set o | o in firstRead, set o | o in secondRead && o.oid in ids;
      forall p :: AffectedByAny(targets, w, all, p) == AffectedByAny(targets, w, used, p)
        && CurrentByAny(targets, w, all, p) == CurrentByAny(targets, w, used, p)
  {
    var all, used := set o | o in firstRead, set o | o in secondRead && o.oid in ids;
    forall o | o in all && o.oid in ids
      ensures o in used
    {
      assert Reread(secondRead, o.oid);
      var o' :| o' in secondRead && o'.oid == o.oid;
      assert o == o';
    }
    forall o | o in all && o !in used
      ensures !AtAnEndpoint(o.interval, w) || Bound(targets, o.information, o.features) == {}
    {
      assert WasCollected(owners, targets, w, o);
    }
    forall p
      ensures AffectedByAny(targets, w, all, p) == AffectedByAny(targets, w, used, p)
      ensures CurrentByAny(targets, w, all, p) == CurrentByAny(targets, w, used, p)
    {
      IrrelevantRowsAddNothing(targets, w, all, used, p);
    }
  }

  /** The target is bound by an owner version that is alive at Through and matches the product. */
  ghost predicate IsBoundAtThrough(targets: set<Target>, w: Window, rows: seq<Owner>, p: Product, t: Target) {
    exists o :: o in rows && t in CurrentBy(targets, w, o, p)
  }

  lemma CurrentMeans(current: map<Product, set<Target>>, targets: set<Target>, w: Window, rows: seq<Owner>, p: Product,
                     t: Target)
    requires Lookup(current, p) == CurrentByAny(targets, w, (set o | o in rows), p)
    ensures p in current && t in current[p] <==> IsBoundAtThrough(targets, w, rows, p, t)
  {
    var all := set o | o in rows;
    if IsBoundAtThrough(targets, w, rows, p, t) {
      var o :| o in rows && t in CurrentBy(targets, w, o, p);
      assert o in all;
      assert t in CurrentByAny(targets, w, all, p);
    } else {
      assert forall o | o in all :: o in rows;
    }
  }

  /** The owner binds the changed target in the column of the target's kind; the empty GUID is never bound. */
  ghost predicate BindsChanged(targets: set<Target>, o: Owner, t: Target) {
    t in targets && t.id != 0 && BindsIn(if t.kind.Information? then o.information else o.features, t)
  }

  lemma BoundAreBindings(targets: set<Target>, o: Owner, t: Target)
    ensures t in Bound(targets, o.information, o.features) <==> BindsChanged(targets, o, t)
  {
    NamedAreBound(o.information, Information);
    NamedAreBound(o.features, Feature);
  }

  /** What the two dictionaries say: an owner matched to the product binds the target, and was alive at a bound. */
  lemma IndexedMeans(targets: set<Target>, w: Window, rows: seq<Owner>, p: Product, t: Target)
    ensures IsBoundAtThrough(targets, w, rows, p, t) <==>
            exists o ::
              && o in rows && o.interval.from <= w.through && (o.interval.to.Some? ==> o.interval.to.value > w.through)
              && o.matched.Success? && p in o.matched.value && BindsChanged(targets, o, t)
    ensures t in AffectedByAny(targets, w, (set o | o in rows), p) <==>
            exists o ::
              && o in rows && (o.interval.Contains(w.since) || o.interval.Contains(w.through))
              && o.matched.Success? && p in o.matched.value && BindsChanged(targets, o, t)
  {
    forall o: Owner ensures t in Bound(targets, o.information, o.features) <==> BindsChanged(targets, o, t) {
      BoundAreBindings(targets, o, t);
    }
    var all := set o | o in rows;
    forall o: Owner ensures o in all <==> o in rows {
    }
    assert t in AffectedByAny(targets, w, all, p) <==> exists o :: o in all && t in AffectedBy(targets, w, o, p);
  }

  /** A row that matters but cannot be read, matched or found again. */
  ghost predicate IsFaulty(targets: set<Target>, w: Window, secondRead: seq<Owner>, o: Owner) {
    && AtAnEndpoint(o.interval, w)
    && (!DocumentsReadable(targets, o.information, o.features)
        || (Bound(targets, o.information, o.features) != {} && (o.matched.Failure? || o !in secondRead)))
  }

  /**
   * Scans the archive once for binding columns, re-reads the referenced owners in batches and indexes them.
   * Whatever order the two cursors used, the scan fails exactly on a faulty row or a rejected bound, and otherwise
   * holds exactly what testing every archive version would give.
   */
  method BuildArchiveBindingIndex(clock: Clock, w: Window, targets: set<Target>, firstRead: seq<Owner>,
                                  secondRead: seq<Owner>)
      returns (r: Result<ArchiveBindingIndex, BindingError>)
    requires clock.storage.Valid()
    requires clock.storage.Local(w.since) < OPEN_END && clock.storage.Local(w.through) < OPEN_END
    requires UniqueIds(firstRead)
    requires forall o, o' | o in firstRead && o' in secondRead && o.oid == o'.oid :: o == o'
    ensures r.Success? ==>
      && Indexes(r.value.affected, r.value.current, targets, w, set o | o in firstRead)
      && r.value.Valid() && r.value.targets == targets && r.value.window == w
      && forall p, t :: r.value.IsCurrent(p, t) <==> IsBoundAtThrough(targets, w, firstRead, p, t)
    ensures r.Failure? <==>
      || clock.ToQueryLowerBound(w).Failure? || clock.ToQueryLowerBound(Window(w.through, w.through)).Failure?
      || exists o :: o in firstRead && IsFaulty(targets, w, secondRead, o)
  {
    var index := new ArchiveBindingIndex(targets, w);
    var sinceFloor, throughFloor := clock.ToQueryLowerBound(w), clock.ToQueryLowerBound(Window(w.through, w.through));
    if sinceFloor.Failure? { return Failure(BoundaryRejected(sinceFloor.error)); }
    if throughFloor.Failure? { return Failure(BoundaryRejected(throughFloor.error)); }
    var owners := CollectOwners(index, clock, sinceFloor.value, throughFloor.value, firstRead);
    if owners.Failure? {
      return Failure(owners.error);
    }
    var ids := Enumerate(owners.value.Keys);
    forall o | o in secondRead && o.oid in owners.value ensures o in firstRead {
      var o' :| o' in firstRead && o'.oid == o.oid;
    }
    forall o | o in firstRead
      ensures WasCollected(owners.value, targets, w, o)
    {
      EndpointRowsAreCollected(owners.value, targets, w, clock, sinceFloor.value, throughFloor.value, firstRead, o);
    }
    var added := AddBatches(index, owners.value, ids, secondRead);
    if added.Failure? {
      if o :| o in secondRead && o.oid in ids && o.matched.Failure? {
        assert o in firstRead;
      } else {
        ghost var id :| id in ids && !Reread(secondRead, id);
        ghost var o :| o in firstRead && o.oid == id;
      }
      return Failure(added.error);
    }
    RereadCoversAll(owners.value, targets, w, ids, firstRead, secondRead);
    forall p, t
      ensures index.IsCurrent(p, t) <==> IsBoundAtThrough(targets, w, firstRead, p, t)
    {
      CurrentMeans(index.current, targets, w, firstRead, p, t);
    }
    return Success(index);
  }

  /** The keys of a dictionary in some order. */
  method Enumerate(keys: set<nat>) returns (ids: seq<nat>)
    ensures forall id :: id in ids <==> id in keys
    ensures forall i, j | 0 <= i < j < |ids| :: ids[i] != ids[j]
  {
    ids := [];
    var rest := keys;
    while rest != {}
      invariant rest <= keys
      invariant forall id :: id in ids <==> id in keys && id !in rest
      invariant forall i, j | 0 <= i < j < |ids| :: ids[i] != ids[j]
    {
      var id :| id in rest;
      ids := ids + [id];
      rest := rest - {id};
    }
  }
}
