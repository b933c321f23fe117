/** The catalogue's domain events and the names of the streams that hold them. */
module CatalogueEvents {
  import opened Wrappers

  /** A coverage reference and the GUID that follows its "::". */
  datatype GeometryRef = GeometryRef(text: string, globalId: string)

  /** Events of the aggregates that are not modelled are `OtherEvent`. */
  datatype Event =
    | PipelineCreated(pipelineId: string, displayName: string, description: Option<string>, utc: int)
    | WorkspaceAdded(displayName: string, displayScale: int, geometryRef: GeometryRef, utc: int)
    | WorkspaceLocked(workspaceId: string, owner: string, utc: int)
    | WorkspaceUnlocked(workspaceId: string, username: string, utc: int)
    | Binded(bindingId: string, packageId: string, boundPipelineId: string, utc: int)
    | Unbound(bindingId: string, packageId: string, boundPipelineId: string, utc: int)
    | OtherEvent(name: string)

  predicate IsPipelineEvent(e: Event) {
    e.PipelineCreated? || e.WorkspaceAdded? || e.WorkspaceLocked? || e.WorkspaceUnlocked?
  }

  predicate IsBindingEvent(e: Event) {
    e.Binded? || e.Unbound?
  }

  function StreamName(kind: string, id: string): string {
    kind + "-" + id
  }

  /** What follows the first dash. */
  function GetId(stream: string): string {
    if stream == "" then ""
    else if stream[0] == '-' then stream[1..]
    else if '-' in stream then GetId(stream[1..])
    else stream
  }

  /** An identifier may contain dashes itself. */
  lemma {:induction false} GetIdOfStreamName(kind: string, id: string)
    requires '-' !in kind
    ensures GetId(StreamName(kind, id)) == id
  {
    var name := StreamName(kind, id);
    assert name[|kind|] == '-';
    if kind != "" {
      assert name[0] == kind[0] && name[1..] == StreamName(kind[1..], id);
      GetIdOfStreamName(kind[1..], id);
    }
  }
}
