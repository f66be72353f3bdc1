/**
 * The batch subset requester: it decides once per run whether the locations table
 * lists points or areas, then issues one subset request per row, in row order,
 * carrying the row's bounding box and the run-wide parameters.
 */
module SubsetPlanner {
  import opened Outcomes
  import opened Tables

  /** How the rows of the locations table are read. */
  datatype Mode = Points | Areas

  datatype Error = MissingLocationColumns

  const PointColumns: set<string> := {"lon", "lat"}
  const AreaColumns: set<string> := {"lon_min", "lon_max", "lat_min", "lat_max"}

  /** The columns a row must have for the given mode. */
  function ModeColumns(mode: Mode): set<string> {
    match mode
    case Points => PointColumns
    case Areas => AreaColumns
  }

  /** Mode selection: points when both point columns are present (checked first),
      otherwise areas when all four area columns are present, otherwise an error.
      A chosen mode's columns are always among the table's columns. */
  function SelectMode(columns: set<string>): (r: Result<Mode, Error>)
    ensures r == Ok(Points) <==> PointColumns <= columns
    ensures r == Ok(Areas) <==> !(PointColumns <= columns) && AreaColumns <= columns
    ensures r == Err(MissingLocationColumns) <==> !(PointColumns <= columns) && !(AreaColumns <= columns)
    ensures r.Ok? ==> ModeColumns(r.value) <= columns
  {
    if PointColumns <= columns then Ok(Points)
    else if AreaColumns <= columns then Ok(Areas)
    else Err(MissingLocationColumns)
  }

  /** The parameters fixed once per run from the command line. The depths are the
      command line's floats, passed through unchanged. */
  datatype RunArgs = RunArgs(
    datasetId: string,
    datasetVersion: string,
    variables: seq<string>,
    startDatetime: string,
    endDatetime: string,
    minDepth: real,
    maxDepth: real,
    coordinatesSelectionMethod: string,
    disableProgressBar: bool,
    credentialsFile: string)

  /** A geographic bounding box. */
  datatype Box = Box(minLon: real, maxLon: real, minLat: real, maxLat: real)

  /** One call of the external subset operation, with its keyword arguments. */
  datatype SubsetRequest = SubsetRequest(
    datasetId: string,
    datasetVersion: string,
    variables: seq<string>,
    minimumLongitude: real,
    maximumLongitude: real,
    minimumLatitude: real,
    maximumLatitude: real,
    startDatetime: string,
    endDatetime: string,
    minimumDepth: real,
    maximumDepth: real,
    coordinatesSelectionMethod: string,
    disableProgressBar: bool,
    credentialsFile: string)

  /** The geographic part of a request. */
  function BoxOf(q: SubsetRequest): Box {
    Box(q.minimumLongitude, q.maximumLongitude, q.minimumLatitude, q.maximumLatitude)
  }

  /** The non-geographic part of a request. */
  function ArgsOf(q: SubsetRequest): RunArgs {
    RunArgs(q.datasetId, q.datasetVersion, q.variables, q.startDatetime, q.endDatetime,
            q.minimumDepth, q.maximumDepth, q.coordinatesSelectionMethod,
            q.disableProgressBar, q.credentialsFile)
  }

  /** The request for one box: its geographic part is the box and all of its other
      arguments are the run's. */
  function MakeRequest(args: RunArgs, b: Box): (q: SubsetRequest)
    ensures BoxOf(q) == b && ArgsOf(q) == args
  {
    SubsetRequest(args.datasetId, args.datasetVersion, args.variables,
                  b.minLon, b.maxLon, b.minLat, b.maxLat,
                  args.startDatetime, args.endDatetime, args.minDepth, args.maxDepth,
                  args.coordinatesSelectionMethod, args.disableProgressBar, args.credentialsFile)
  }

  /** A request is determined by its box and its run parameters. */
  lemma RequestFromParts(q: SubsetRequest)
    ensures MakeRequest(ArgsOf(q), BoxOf(q)) == q
  {
  }

  /** The bounding box of a row: degenerate at (lon, lat) for points, the row's four
      bounds unchanged for areas. */
  function RowBox(mode: Mode, row: map<string, real>): (b: Box)
    requires ModeColumns(mode) <= row.Keys
    ensures mode == Points ==> b.minLon == b.maxLon == row["lon"] && b.minLat == b.maxLat == row["lat"]
    ensures mode == Areas ==>
      b.minLon == row["lon_min"] && b.maxLon == row["lon_max"] &&
      b.minLat == row["lat_min"] && b.maxLat == row["lat_max"]
  {
    match mode
    case Points => Box(row["lon"], row["lon"], row["lat"], row["lat"])
    case Areas => Box(row["lon_min"], row["lon_max"], row["lat_min"], row["lat_max"])
  }

  /** The requests for the rows, one per row and in row order. */
  function PlannedRequests(args: RunArgs, mode: Mode, rows: seq<map<string, real>>): (qs: seq<SubsetRequest>)
    requires forall i :: 0 <= i < |rows| ==> ModeColumns(mode) <= rows[i].Keys
    ensures |qs| == |rows|
    ensures forall k :: 0 <= k < |rows| ==> qs[k] == MakeRequest(args, RowBox(mode, rows[k]))
  {
    if rows == [] then []
    else [MakeRequest(args, RowBox(mode, rows[0]))] + PlannedRequests(args, mode, rows[1..])
  }

  /** The whole run's requests, or the error that stops it before any request:
      it fails exactly when neither column set is complete, and otherwise plans
      one request per row. */
  function Plan(args: RunArgs, locations: Table<real>): (r: Result<seq<SubsetRequest>, Error>)
    requires locations.WellFormed()
    ensures r.Err? <==> !(PointColumns <= locations.columns) && !(AreaColumns <= locations.columns)
    ensures r.Err? ==> r.error == MissingLocationColumns
    ensures r.Ok? ==> |r.value| == |locations.rows|
  {
    match SelectMode(locations.columns)
    case Err(e) => Err(e)
    case Ok(mode) => Ok(PlannedRequests(args, mode, locations.rows))
  }

  /** Point tables give degenerate boxes at each row's (lon, lat), even when the
      four area columns are present too. */
  lemma {:induction false} PointRequestsAreDegenerate(args: RunArgs, locations: Table<real>)
    requires locations.WellFormed()
    requires PointColumns <= locations.columns
    ensures Plan(args, locations).Ok?
    ensures forall k :: 0 <= k < |locations.rows| ==>
      var q := Plan(args, locations).value[k];
      var row := locations.rows[k];
      q.minimumLongitude == q.maximumLongitude == row["lon"] &&
      q.minimumLatitude == q.maximumLatitude == row["lat"]
  {
  }

  /** Area tables (without both point columns) pass each row's four bounds through. */
  lemma {:induction false} AreaRequestsPassBoundsThrough(args: RunArgs, locations: Table<real>)
    requires locations.WellFormed()
    requires !(PointColumns <= locations.columns) && AreaColumns <= locations.columns
    ensures Plan(args, locations).Ok?
    ensures forall k :: 0 <= k < |locations.rows| ==>
      var q := Plan(args, locations).value[k];
      var row := locations.rows[k];
      q.minimumLongitude == row["lon_min"] && q.maximumLongitude == row["lon_max"] &&
      q.minimumLatitude == row["lat_min"] && q.maximumLatitude == row["lat_max"]
  {
  }

  /** Every request of a run carries the same non-geographic arguments: the run's. */
  lemma {:induction false} RunParametersAreShared(args: RunArgs, locations: Table<real>)
    requires locations.WellFormed()
    requires Plan(args, locations).Ok?
    ensures forall k :: 0 <= k < |Plan(args, locations).value| ==> ArgsOf(Plan(args, locations).value[k]) == args
    ensures forall i, j :: 0 <= i < j < |Plan(args, locations).value| ==>
      ArgsOf(Plan(args, locations).value[i]) == ArgsOf(Plan(args, locations).value[j])
  {
  }

  /** Every request of a run reads its row in the one mode chosen for the run. */
  lemma {:induction false} ModeFixedForRun(args: RunArgs, locations: Table<real>)
    requires locations.WellFormed()
    requires Plan(args, locations).Ok?
    ensures forall k :: 0 <= k < |locations.rows| ==>
      BoxOf(Plan(args, locations).value[k]) == RowBox(SelectMode(locations.columns).value, locations.rows[k])
  {
  }

  /** The external subset service, seen through the calls made to it. */
  class SubsetClient {
    var calls: seq<SubsetRequest>

    constructor ()
      ensures calls == []
    {
      calls := [];
    }

    /** One call of the subset operation. */
    method Subset(q: SubsetRequest)
      modifies this
      ensures calls == old(calls) + [q]
    {
      calls := calls + [q];
    }
  }

  /** The script's main loop: select the mode, then one subset call per row. */
  method Run(args: RunArgs, locations: Table<real>, client: SubsetClient) returns (r: Outcome<Error>)
    requires locations.WellFormed()
    modifies client
    ensures Plan(args, locations).Err? ==>
      r == Fail(Plan(args, locations).error) && client.calls == old(client.calls)
    ensures Plan(args, locations).Ok? ==>
      r == Pass && client.calls == old(client.calls) + Plan(args, locations).value
  {
    var chosen := SelectMode(locations.columns);
    if chosen.Err? {
      return Fail(chosen.error);
    }
    var mode := chosen.value;
    var rows := locations.rows;
    ghost var before := client.calls;
    var i := 0;
    while i < |rows|
      invariant 0 <= i <= |rows|
      invariant |client.calls| == |before| + i
      invariant client.calls[..|before|] == before
      invariant forall k :: 0 <= k < i ==> client.calls[|before| + k] == MakeRequest(args, RowBox(mode, rows[k]))
    {
      var loc := rows[i];
      var lonMin, lonMax, latMin, latMax;
      if mode == Points {
        lonMin, lonMax := loc["lon"], loc["lon"];
        latMin, latMax := loc["lat"], loc["lat"];
      } else {
        lonMin := loc["lon_min"];
        lonMax := loc["lon_max"];
        latMin := loc["lat_min"];
        latMax := loc["lat_max"];
      }
      client.Subset(SubsetRequest(
        args.datasetId, args.datasetVersion, args.variables,
        lonMin, lonMax, latMin, latMax,
        args.startDatetime, args.endDatetime, args.minDepth, args.maxDepth,
        args.coordinatesSelectionMethod, args.disableProgressBar, args.credentialsFile));
      i := i + 1;
    }
    assert client.calls == before + PlannedRequests(args, mode, rows);
    r := Pass;
  }
}
