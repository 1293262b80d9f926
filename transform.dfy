/**
 * The record transformer: `transform_entries` maps each normalised entry to
 * its output row, classifying the status and the refresh type, rendering the
 * timestamps, computing the duration and extracting the error message.
 */
module Transform {
  import opened Wrappers
  import opened Timestamps
  import opened ErrorMessages

  /** The collaborators the transformer calls but the model does not define:
      `datetime.fromisoformat`, the rendering in the target time zone, and
      `json.loads`. */
  datatype Env = Env(read: IsoReader, render: LocalRenderer, decode: JsonReader)

  /** An entry handed to `transform_entries`. Each member is None when the
      key is absent (or its value null). */
  datatype Entry = Entry(
    workspace: Option<string>,
    kind: Option<string>,
    datasetName: Option<string>,
    dataflowName: Option<string>,
    status: Option<string>,
    refreshType: Option<string>,
    startTime: Option<string>,
    endTime: Option<string>,
    errorMessage: Option<string>,
    attemptCount: Option<int>)

  /** The two output shapes. A Dataflow row has no `tipo_refresh`, `erro` or
      `attemptCount`. */
  datatype Row =
    | DatasetRow(workspace: string, datasetName: string, status: string, tipoRefresh: string,
                 dataInicio: string, dataFim: string, durationSeconds: Option<int>,
                 erro: string, attemptCount: int)
    | DataflowRow(workspace: string, dataflowName: string, status: string,
                  dataInicio: string, dataFim: string, durationSeconds: Option<int>)
  {
    /** The `origem` member. */
    function Origem(): string {
      if DatasetRow? then "Dataset" else "Dataflow"
    }
  }

  /** Why transforming an entry raises: `fromisoformat` rejects a non-empty
      timestamp (ValueError), or a member read with `e[key]` is absent
      (KeyError). */
  datatype Fault = MalformedTimestamp(text: string) | MissingKey(key: string)

  /** `e.get(key, '')` for a text member. */
  function Text(member: Option<string>): (r: string)
    ensures member.Some? ==> r == member.value
    ensures member.None? ==> r == ""
  {
    member.GetOr("")
  }

  /** The three-valued status. */
  function ClassifyStatus(raw: string): (r: string)
    ensures r in {"Sucesso", "Falha", "Cancelado"}
    ensures r == "Cancelado" <==> raw == "Cancelled"
    ensures r == "Sucesso" <==> raw == "Success" || raw == "Completed"
    ensures r == "Falha" <==> raw !in {"Cancelled", "Success", "Completed"}
  {
    if raw == "Cancelled" then "Cancelado"
    else if raw in {"Success", "Completed"} then "Sucesso"
    else "Falha"
  }

  const RefreshTypeLabels: map<string, string> := map["ViaApi" := "API", "Scheduled" := "Agendamento"]

  /** The refresh-type label, with `Sob Demanda` as the default bucket. */
  function RefreshTypeLabel(raw: string): (r: string)
    ensures r in {"API", "Agendamento", "Sob Demanda"}
    ensures r == "API" <==> raw == "ViaApi"
    ensures r == "Agendamento" <==> raw == "Scheduled"
    ensures r == "Sob Demanda" <==> raw !in {"ViaApi", "Scheduled"}
  {
    if raw in RefreshTypeLabels then RefreshTypeLabels[raw] else "Sob Demanda"
  }

  /** `int((de - ds).total_seconds()) if ds and de else None`. */
  function Duration(start: Parsed, end: Parsed): (r: Option<int>)
    ensures r.Some? <==> start.Instant? && end.Instant?
    ensures r.Some? ==> start.seconds + r.value == end.seconds
  {
    if start.Instant? && end.Instant? then Some(end.seconds - start.seconds) else None
  }

  /** An empty timestamp leaves the duration out; a negative one is passed
      through unclamped. */
  lemma DurationCases(startText: string, endText: string, read: IsoReader)
    ensures startText == "" || endText == "" ==> Duration(ParseIso(startText, read), ParseIso(endText, read)).None?
    ensures var s, e := ParseIso(startText, read), ParseIso(endText, read);
            s.Instant? && e.Instant? && e.seconds < s.seconds ==> Duration(s, e).value < 0
  {
  }

  /** Worked example: five and a half minutes, both ends written with `Z`. */
  lemma DurationExample(read: IsoReader, t: int)
    requires read("2025-05-28T10:00:00+00:00") == Some(t)
    requires read("2025-05-28T10:05:30+00:00") == Some(t + 330)
    ensures Duration(ParseIso("2025-05-28T10:00:00Z", read), ParseIso("2025-05-28T10:05:30Z", read)) == Some(330)
  {
    assert "2025-05-28T10:00:00Z" == "2025-05-28T10:00:00" + "Z";
    assert "2025-05-28T10:00:00+00:00" == "2025-05-28T10:00:00" + UtcOffset;
    ZuluEqualsUtcOffset("2025-05-28T10:00:00", read);
    assert "2025-05-28T10:05:30Z" == "2025-05-28T10:05:30" + "Z";
    assert "2025-05-28T10:05:30+00:00" == "2025-05-28T10:05:30" + UtcOffset;
    ZuluEqualsUtcOffset("2025-05-28T10:05:30", read);
  }

  /** The transformation of one entry, in the order the source evaluates it:
      both timestamps are parsed first, then the row is built. It fails
      exactly when a timestamp is malformed or a member read with `e[key]` is
      missing, and the row is a Dataset row exactly when `type` is `Dataset`. */
  function TransformEntry(env: Env, e: Entry): (r: Result<Row, Fault>)
    ensures r.Success? <==>
              !ParseIso(Text(e.startTime), env.read).Malformed? &&
              !ParseIso(Text(e.endTime), env.read).Malformed? &&
              e.workspace.Some? &&
              (if e.kind == Some("Dataset") then e.datasetName.Some? else e.dataflowName.Some?)
    ensures r.Success? ==> (r.value.DatasetRow? <==> e.kind == Some("Dataset"))
  {
    var ds := ParseIso(Text(e.startTime), env.read);
    var de := ParseIso(Text(e.endTime), env.read);
    if ds.Malformed? then Failure(MalformedTimestamp(ds.text))
    else if de.Malformed? then Failure(MalformedTimestamp(de.text))
    else
      var status := ClassifyStatus(Text(e.status));
      var inicio := Render(ds, env.render).value;
      var fim := Render(de, env.render).value;
      if e.workspace.None? then Failure(MissingKey("workspace"))
      else if e.kind == Some("Dataset") then
        if e.datasetName.None? then Failure(MissingKey("dataset_name"))
        else Success(DatasetRow(
          workspace := e.workspace.value,
          datasetName := e.datasetName.value,
          status := status,
          tipoRefresh := RefreshTypeLabel(Text(e.refreshType)),
          dataInicio := inicio,
          dataFim := fim,
          durationSeconds := Duration(ds, de),
          erro := ExtractErrorMessage(Text(e.errorMessage), env.decode),
          attemptCount := e.attemptCount.GetOr(0)))
      else if e.dataflowName.None? then Failure(MissingKey("dataflow_name"))
      else Success(DataflowRow(
        workspace := e.workspace.value,
        dataflowName := e.dataflowName.value,
        status := status,
        dataInicio := inicio,
        dataFim := fim,
        durationSeconds := Duration(ds, de)))
  }

  /** What each member of a transformed row holds. */
  lemma TransformedMembers(env: Env, e: Entry)
    requires TransformEntry(env, e).Success?
    ensures var row, ds, de := TransformEntry(env, e).value, ParseIso(Text(e.startTime), env.read), ParseIso(Text(e.endTime), env.read);
            && (row.Origem() == "Dataset" <==> e.kind == Some("Dataset"))
            && row.workspace == e.workspace.value
            && row.status == ClassifyStatus(Text(e.status))
            && row.durationSeconds == Duration(ds, de)
            && Some(row.dataInicio) == Render(ds, env.render)
            && Some(row.dataFim) == Render(de, env.render)
            && (row.DatasetRow? ==>
                  && row.datasetName == e.datasetName.value
                  && row.tipoRefresh == RefreshTypeLabel(Text(e.refreshType))
                  && row.erro == ExtractErrorMessage(Text(e.errorMessage), env.decode)
                  && row.attemptCount == e.attemptCount.GetOr(0))
            && (row.DataflowRow? ==> row.dataflowName == e.dataflowName.value)
  {
  }

  /** Which fault an entry raises: the start timestamp is parsed first, then
      the end timestamp, then `workspace` is read, then the name. */
  lemma TransformFault(env: Env, e: Entry)
    requires TransformEntry(env, e).Failure?
    ensures var f, ds, de := TransformEntry(env, e).error, ParseIso(Text(e.startTime), env.read), ParseIso(Text(e.endTime), env.read);
            if ds.Malformed? then f == MalformedTimestamp(ds.text)
            else if de.Malformed? then f == MalformedTimestamp(de.text)
            else if e.workspace.None? then f == MissingKey("workspace")
            else if e.kind == Some("Dataset") then f == MissingKey("dataset_name")
            else f == MissingKey("dataflow_name")
  {
  }

  /** `transform_entries`: one row per entry, in entry order; the first entry
      that raises aborts the whole call with its fault. */
  method TransformEntries(env: Env, entries: seq<Entry>) returns (r: Result<seq<Row>, Fault>)
    ensures r.Success? <==> forall i :: 0 <= i < |entries| ==> TransformEntry(env, entries[i]).Success?
    ensures r.Success? ==> |r.value| == |entries|
    ensures r.Success? ==> forall i :: 0 <= i < |entries| ==> TransformEntry(env, entries[i]) == Success(r.value[i])
    ensures r.Failure? ==> exists k :: 0 <= k < |entries| && TransformEntry(env, entries[k]) == Failure(r.error) &&
                                       forall j :: 0 <= j < k ==> TransformEntry(env, entries[j]).Success?
  {
    var out: seq<Row> := [];
    for i := 0 to |entries|
      invariant |out| == i
      invariant forall j :: 0 <= j < i ==> TransformEntry(env, entries[j]) == Success(out[j])
    {
      var row := TransformEntry(env, entries[i]);
      if row.Failure? {
        return Failure(row.error);
      }
      out := out + [row.value];
    }
    return Success(out);
  }
}
