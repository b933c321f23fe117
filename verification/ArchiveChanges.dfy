/** The change record built from the two endpoint states of one feature. */
module ArchiveChanges {
  import opened Wrappers
  import opened ArchiveWindow

  /** The row columns read from one archive version; a binding document may be absent. */
  datatype SourceRow = SourceRow(code: string, attributes: Option<string>, features: Option<string>,
                                 information: Option<string>, scale: Option<int>)

  datatype ArchiveRow = ArchiveRow(
    code: string, attributes: Option<string>, features: Option<string>, information: Option<string>, scale: Option<int>,
    beforeCode: Option<string>, beforeAttributes: Option<string>, beforeFeatures: Option<string>,
      beforeInformation: Option<string>,
    beforeScale: Option<int>, geometryChanged: bool, deleted: bool, editDate: int)

  /** A version's columns with its shape; rows of non-spatial tables have none. */
  datatype Content<Shape> = Content(row: SourceRow, shape: Option<Shape>)

  function ComposeRow(before: Option<SourceRow>, after: Option<SourceRow>, latest: SourceRow, latestEdit: int,
                      geometryChanged: bool): ArchiveRow {
    ArchiveRow(
      if after.Some? then after.value.code else latest.code,
      if after.Some? then after.value.attributes else None,
      if after.Some? then after.value.features else None,
      if after.Some? then after.value.information else None,
      if after.Some? then after.value.scale else None,
      if before.Some? then Some(before.value.code) else None,
      if before.Some? then before.value.attributes else None,
      if before.Some? then before.value.features else None,
      if before.Some? then before.value.information else None,
      if before.Some? then before.value.scale else None,
      geometryChanged, after.None?, latestEdit)
  }

  function RowOf<Shape>(v: Option<Version<Content<Shape>>>): Option<SourceRow> {
    if v.Some? then Some(v.value.content.row) else None
  }

  function ShapeOf<Shape>(v: Option<Version<Content<Shape>>>): Option<Shape> {
    if v.Some? then v.value.content.shape else None
  }

  function RowFor<Shape>(e: Endpoints<Content<Shape>>, sameShape: (Shape, Shape) -> bool): ArchiveRow {
    var shape, shape' := ShapeOf(e.before), ShapeOf(e.after);
    ComposeRow(RowOf(e.before), RowOf(e.after), e.latest.content.row, e.latestEdit,
               shape.Some? && shape'.Some? && !sameShape(shape.value, shape'.value))
  }

  function ComposeArchiveChange<Shape>(w: Window, versions: seq<Version<Content<Shape>>>,
                                       sameShape: (Shape, Shape) -> bool): Result<ArchiveRow, ScanError> {
    match w.Compose(versions)
    case Failure(e) => Failure(e)
    case Success(e) => Success(RowFor(e, sameShape))
  }

  lemma DescribedRowsAgree<Shape>(history: set<Version<Content<Shape>>>, w: Window, e: Endpoints<Content<Shape>>,
                                        e': Endpoints<Content<Shape>>, sameShape: (Shape, Shape) -> bool)
    requires Disjoint(history) && PositiveLengths(history) && w.Valid()
    requires Describes(history, w, e) && Describes(history, w, e')
    ensures RowFor(e, sameShape) == RowFor(e', sameShape)
  {
    DescribedEndpointsAreStates(history, w, e);
    DescribedEndpointsAreStates(history, w, e');
    StateIsUnique(history, w.since, e.before, e'.before);
    StateIsUnique(history, w.through, e.after, e'.after);
    if e.after.None? {
      LatestIsUniqueAfterDeletion(history, w, e, e'.latest);
    }
  }

  /**
   * The change record depends only on the history: not on the order the cursor returned the rows in,
   * on repeated rows, or on over-selected rows without an event.
   */
  lemma ChangeIgnoresCursorOrder<Shape>(history: set<Version<Content<Shape>>>, w: Window,
                                        rows: seq<Version<Content<Shape>>>,
                                              rows': seq<Version<Content<Shape>>>, sameShape: (Shape, Shape) -> bool)
    requires Disjoint(history) && PositiveLengths(history) && w.Valid()
    requires Scanned(history, w, rows) && Scanned(history, w, rows')
    ensures ComposeArchiveChange(w, rows, sameShape) == ComposeArchiveChange(w, rows', sameShape)
  {
    ComposeIsDefined(history, w, rows);
    ComposeIsDefined(history, w, rows');
    if w.Compose(rows).Success? {
      ComposeDescribes(history, w, rows);
      ComposeDescribes(history, w, rows');
      DescribedRowsAgree(history, w, w.Compose(rows).value, w.Compose(rows').value, sameShape);
    }
  }

  /** The same rows compose, column by column, to the states before and after the window and to its newest event. */
  lemma ChangeShowsBothStates<Shape>(history: set<Version<Content<Shape>>>, w: Window,
                                     rows: seq<Version<Content<Shape>>>, sameShape: (Shape, Shape) -> bool,
                                     b: Option<Version<Content<Shape>>>, a: Option<Version<Content<Shape>>>,
                                     r: ArchiveRow)
    requires Disjoint(history) && PositiveLengths(history) && w.Valid() && Scanned(history, w, rows)
    requires IsStateAt(history, w.since, b) && IsStateAt(history, w.through, a)
    requires ComposeArchiveChange(w, rows, sameShape) == Success(r)
    ensures match b
            case None =>
              && r.beforeCode.None? && r.beforeAttributes.None? && r.beforeFeatures.None?
              && r.beforeInformation.None? && r.beforeScale.None?
            case Some(v) =>
              && r.beforeCode == Some(v.content.row.code) && r.beforeAttributes == v.content.row.attributes
              && r.beforeFeatures == v.content.row.features && r.beforeInformation == v.content.row.information
              && r.beforeScale == v.content.row.scale
    ensures match a
            case None =>
              && r.attributes.None? && r.features.None? && r.information.None? && r.scale.None?
              && forall v | v in history && ChangesAt(v.interval, r.editDate) :: r.code == v.content.row.code
            case Some(v) =>
              && r.attributes == v.content.row.attributes && r.features == v.content.row.features
              && r.information == v.content.row.information && r.scale == v.content.row.scale
              && r.code == v.content.row.code
    ensures r.deleted <==> forall v | v in history :: !v.interval.Contains(w.through)
    ensures r.geometryChanged <==>
            && b.Some? && a.Some? && b.value.content.shape.Some? && a.value.content.shape.Some?
            && !sameShape(b.value.content.shape.value, a.value.content.shape.value)
    ensures w.since < r.editDate <= w.through && exists v :: v in history && ChangesAt(v.interval, r.editDate)
    ensures forall v, t | v in history && ChangesAt(v.interval, t) && w.since < t <= w.through :: t <= r.editDate
  {
    var e := w.Compose(rows).value;
    ComposeDescribes(history, w, rows);
    DescribedEndpointsAreStates(history, w, e);
    StateIsUnique(history, w.since, e.before, b);
    StateIsUnique(history, w.through, e.after, a);
    NewestEventIsSeen(history, w, e);
    if a.None? {
      forall v | v in history && ChangesAt(v.interval, r.editDate) ensures r.code == v.content.row.code {
        LatestEventIsGreatest(v.interval, w.since, w.through, r.editDate);
        LatestIsUniqueAfterDeletion(history, w, e, v);
      }
    }
  }

  /** A change is composed exactly when some version begins or ends in the window. */
  lemma ChangeIsComposedIff<Shape>(history: set<Version<Content<Shape>>>, w: Window,
                                   rows: seq<Version<Content<Shape>>>, sameShape: (Shape, Shape) -> bool)
    requires Scanned(history, w, rows)
    ensures var r := ComposeArchiveChange(w, rows, sameShape);
            if exists v, t :: v in history && ChangesAt(v.interval, t) && w.since < t <= w.through
            then r.Success? else r == Failure(NoEventInWindow)
  {
    ComposeIsDefined(history, w, rows);
    forall v | v in history
      ensures v.interval.HasEvent(w) <==> exists t :: ChangesAt(v.interval, t) && w.since < t <= w.through
    {
      LatestEventIsGreatest(v.interval, w.since, w.through, 0);
    }
  }

  /** Ties for the newest version do occur: here an edit closes one version and opens the next at the same instant. */
  lemma NewestVersionCanTie()
    ensures var closed := Version(0, Interval(0, Some(5)));
            var created := Version(1, Interval(5, None));
            var w := Window(3, 7);
            && Disjoint({closed, created}) && PositiveLengths({closed, created})
            && w.Compose([closed, created]).Success? && w.Compose([created, closed]).Success?
            && w.Compose([closed, created]).value.latest != w.Compose([created, closed]).value.latest
  {
    var closed := Version(0, Interval(0, Some(5)));
    var created := Version(1, Interval(5, None));
    var w := Window(3, 7);
    assert closed.interval.LatestEvent(w) == created.interval.LatestEvent(w) == Some(5);
    var has := EventIn<int>(w);
    var key := NewestEvent<int>(w);
    assert Where([created], has) == [created] && Where([closed], has) == [closed] by {
      assert [created][1..] == [] && [closed][1..] == [];
    }
    assert [closed, created][1..] == [created] && [created, closed][1..] == [closed];
    assert Where([closed, created], has) == [closed, created];
    assert Where([created, closed], has) == [created, closed];
    assert FirstGreatest([created], key) == Some(created) && FirstGreatest([closed], key) == Some(closed);
    assert FirstGreatest([closed, created], key) == Some(closed);
    assert FirstGreatest([created, closed], key) == Some(created);
  }
}
