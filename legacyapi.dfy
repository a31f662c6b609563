/** The upload API of the legacy back end: an upload is checked for its content type,
    then its file name, then its size, before the DEM is processed; a processed DEM is
    stored in the in-memory job table under a fresh id and read back by id. */
module LegacyApi {
  import opened Numerics
  import opened Text
  import opened Upload
  import opened RasterSlope
  import opened RasterSummary
  import opened LegacySummary

  /** 25 MiB, the largest body accepted. */
  const MaxUploadBytes: nat := 25 * 1024 * 1024

  /** The query parameters of `POST /upload`, passed on to the processing. */
  datatype UploadParams = UploadParams(runningSlopeMax: real, crossSlopeMax: real, assumedPathAxis: string)

  const DefaultParams := UploadParams(0.05, 0.02083, "x")

  /** `process_dem_in_memory(data, ...)` of the legacy back end: the body decoded by
      `decode` (`load_dem_from_bytes`), then the running and cross slopes and their
      statistics for the query's limits and axis; `hypot` is the square root of the
      magnitude. Any exception raised on the way is an `Err`. */
  function ProcessInMemory(decode: Decoder, hypot: (real, real) -> real, data: seq<byte>, params: UploadParams)
    : (r: Result<LegacyReport, string>)
    ensures decode(data).Err? ==> r == Err(decode(data).error)
    ensures decode(data).Ok? ==>
      var d := decode(data).value;
      r == LegacyProcessDem(hypot, d.band, d.resx, d.resy, d.nodata,
                            params.runningSlopeMax, params.crossSlopeMax, params.assumedPathAxis)
  {
    match decode(data)
    case Err(e) => Err(e)
    case Ok(d) => LegacyProcessDem(hypot, d.band, d.resx, d.resy, d.nodata,
                                   params.runningSlopeMax, params.crossSlopeMax, params.assumedPathAxis)
  }

  /** A decoded upload is processed exactly when both axes of its band hold two cells. */
  lemma ProcessedUploadOk(decode: Decoder, hypot: (real, real) -> real, data: seq<byte>, params: UploadParams)
    requires decode(data).Ok?
    ensures var d := decode(data).value;
      ProcessInMemory(decode, hypot, data, params).Ok? <==> |d.band| >= 2 && Width(d.band) >= 2
  {
  }

  /** The histogram of a processed upload has ten bins that count every valid running
      cell. */
  lemma ProcessedUploadHistogram(decode: Decoder, hypot: (real, real) -> real, data: seq<byte>, params: UploadParams)
    requires IsHypot(hypot)
    ensures var r := ProcessInMemory(decode, hypot, data, params);
      r.Ok? ==> |r.value.histogram| == 10 && SumNat(r.value.histogram) == r.value.summary.pixelsTotal
  {
    if decode(data).Ok? {
      var d := decode(data).value;
      LegacyProcessDemHistogramTotal(hypot, d.band, d.resx, d.resy, d.nodata,
                                     params.runningSlopeMax, params.crossSlopeMax, params.assumedPathAxis);
    }
  }

  /** For a processed upload, `pass_running` holds exactly when no valid running-slope
      cell exceeds the query's limit. */
  lemma ProcessedUploadRunning(decode: Decoder, hypot: (real, real) -> real, data: seq<byte>, params: UploadParams)
    requires decode(data).Ok?
    ensures var d := decode(data).value;
      var r := ProcessInMemory(decode, hypot, data, params);
      r.Ok? ==>
        var running := RunningSlope(hypot, d.band, d.resx, d.resy, d.nodata).value;
        (r.value.summary.passRunning <==>
          forall i, j :: 0 <= i < |running| && 0 <= j < |running[i]| && running[i][j].Some? ==>
            running[i][j].value <= params.runningSlopeMax * 100.0)
  {
    var d := decode(data).value;
    var r := ProcessInMemory(decode, hypot, data, params);
    if r.Ok? {
      var running := RunningSlope(hypot, d.band, d.resx, d.resy, d.nodata).value;
      var cross := CrossSlope(d.band, d.resx, d.resy, params.assumedPathAxis, d.nodata).value;
      PassFlags(r.value, running, cross, params.runningSlopeMax, params.crossSlopeMax);
    }
  }

  /** For a processed upload, `pass_cross` holds exactly when no valid cross-slope cell
      along the query's axis exceeds the query's cross limit. */
  lemma ProcessedUploadCross(decode: Decoder, hypot: (real, real) -> real, data: seq<byte>, params: UploadParams)
    requires decode(data).Ok?
    ensures var d := decode(data).value;
      var r := ProcessInMemory(decode, hypot, data, params);
      r.Ok? ==>
        var cross := CrossSlope(d.band, d.resx, d.resy, params.assumedPathAxis, d.nodata).value;
        (r.value.summary.passCross <==>
          forall i, j :: 0 <= i < |cross| && 0 <= j < |cross[i]| && cross[i][j].Some? ==>
            cross[i][j].value <= params.crossSlopeMax * 100.0)
  {
    var d := decode(data).value;
    var r := ProcessInMemory(decode, hypot, data, params);
    if r.Ok? {
      var running := RunningSlope(hypot, d.band, d.resx, d.resy, d.nodata).value;
      var cross := CrossSlope(d.band, d.resx, d.resy, params.assumedPathAxis, d.nodata).value;
      PassFlags(r.value, running, cross, params.runningSlopeMax, params.crossSlopeMax);
    }
  }

  /** The pass flags of a legacy report, over any two slope grids. */
  lemma PassFlags(rep: LegacyReport, running: seq<seq<Option<real>>>, cross: seq<seq<Option<real>>>,
                  runningMax: real, crossMax: real)
    requires rep == SummarizeLegacy(running, cross, runningMax, crossMax)
    ensures rep.summary.passRunning <==>
      forall i, j :: 0 <= i < |running| && 0 <= j < |running[i]| && running[i][j].Some? ==>
        running[i][j].value <= runningMax * 100.0
    ensures rep.summary.passCross <==>
      forall i, j :: 0 <= i < |cross| && 0 <= j < |cross[i]| && cross[i][j].Some? ==>
        cross[i][j].value <= crossMax * 100.0
  {
    LegacyPassIff(running, cross, runningMax, crossMax);
  }

  /** `(content_type or "").lower() == "image/tiff"`. */
  predicate MimeAccepted(contentType: Option<string>) {
    Lower(if contentType.Some? then contentType.value else "") == "image/tiff"
  }

  /** The checks that run before any processing, in their order: the status code and
      detail of the first failing one, or `None` when the upload may be processed. */
  function Rejection(file: UploadFile): (r: Option<(nat, string)>)
    ensures r == Some((400, "ERR_BAD_MIME")) <==>
              !MimeAccepted(file.contentType) || !HasTiffExtension(file.filename)
    ensures r == Some((413, "ERR_SIZE_LIMIT")) <==>
              MimeAccepted(file.contentType) && HasTiffExtension(file.filename) && |file.data| > MaxUploadBytes
    ensures r == None <==>
              MimeAccepted(file.contentType) && HasTiffExtension(file.filename) && |file.data| <= MaxUploadBytes
  {
    if !MimeAccepted(file.contentType) then Some((400, "ERR_BAD_MIME"))
    else if !HasTiffExtension(file.filename) then Some((400, "ERR_BAD_MIME"))
    else if |file.data| > MaxUploadBytes then Some((413, "ERR_SIZE_LIMIT"))
    else None
  }

  /** The legacy application with its job table. */
  class LegacyApp {
    var jobs: map<string, Job<LegacyStats>>

    /** Every stored job is finished. */
    predicate Valid()
      reads this
    {
      forall id :: id in jobs ==> jobs[id].status == "done"
    }

    constructor()
      ensures jobs == map[]
      ensures Valid()
    {
      jobs := map[];
    }

    /** `POST /upload`. `freshId` stands for the new uuid4; `decode` and `hypot` for
        the decoding and the square root of the processing. */
    method UploadDem(file: UploadFile, params: UploadParams, freshId: string,
                     decode: Decoder, hypot: (real, real) -> real)
      returns (r: Response<string>)
      requires Valid()
      modifies this
      ensures Valid()
      ensures Rejection(file).Some? ==>
                r == HttpError(Rejection(file).value.0, Rejection(file).value.1) && jobs == old(jobs)
      ensures Rejection(file).None? && ProcessInMemory(decode, hypot, file.data, params).Err? ==>
                r == HttpError(500, "ERR_TIFF_READ") && jobs == old(jobs)
      ensures Rejection(file).None? && ProcessInMemory(decode, hypot, file.data, params).Ok? ==>
                var report := ProcessInMemory(decode, hypot, file.data, params).value;
                r == Success(freshId) && jobs == old(jobs)[freshId := StoredJob(report.summary, report.histogram)]
    {
      var ct := if file.contentType.Some? then file.contentType.value else "";
      if Lower(ct) != "image/tiff" {
        return HttpError(400, "ERR_BAD_MIME");
      }
      if !HasTiffExtension(file.filename) {
        return HttpError(400, "ERR_BAD_MIME");
      }
      var data := file.data;
      if |data| > MaxUploadBytes {
        return HttpError(413, "ERR_SIZE_LIMIT");
      }
      var result := ProcessInMemory(decode, hypot, data, params);
      if result.Err? {
        return HttpError(500, "ERR_TIFF_READ");
      }
      jobs := jobs[freshId := StoredJob(result.value.summary, result.value.histogram)];
      r := Success(freshId);
    }

    /** `GET /results/{job_id}`. */
    method Results(jobId: string) returns (r: Response<Job<LegacyStats>>)
      ensures Valid() && r.Success? ==> r.body.status == "done"
      ensures r == LookUp(jobs, jobId)
    {
      r := LookUp(jobs, jobId);
    }
  }

  /** A wrong content type is reported as ERR_BAD_MIME whatever the name and the size:
      that check comes first. */
  lemma MimeCheckedFirst(file: UploadFile)
    requires !MimeAccepted(file.contentType)
    ensures Rejection(file) == Some((400, "ERR_BAD_MIME"))
  {
  }

  /** A missing content type is a wrong one. */
  lemma MissingMimeRejected(name: string, data: seq<byte>)
    ensures Rejection(UploadFile(name, None, data)) == Some((400, "ERR_BAD_MIME"))
  {
    assert Lower("") == "";
  }

  /** The content type is compared case-insensitively. */
  lemma UpperCaseMimeAccepted()
    ensures MimeAccepted(Some("IMAGE/TIFF"))
  {
    assert Lower("IMAGE/TIFF") == "image/tiff";
  }

  /** The size limit is inclusive: a well-named TIFF of exactly 26214400 bytes passes,
      one byte more is refused with 413. */
  lemma SizeLimitBoundary(stem: string, data: seq<byte>)
    ensures |data| == 26214400 ==> Rejection(UploadFile(stem + ".tif", Some("image/tiff"), data)) == None
    ensures |data| == 26214401 ==>
              Rejection(UploadFile(stem + ".tif", Some("image/tiff"), data)) == Some((413, "ERR_SIZE_LIMIT"))
  {
    TiffSuffixAccepted(stem, ".tif");
    assert Lower(".tif") == ".tif";
    assert Lower("image/tiff") == "image/tiff";
  }

  /** A plain-text upload named "bad.txt" is refused as ERR_BAD_MIME. */
  lemma PlainTextRejected(data: seq<byte>)
    ensures Rejection(UploadFile("bad.txt", Some("text/plain"), data)) == Some((400, "ERR_BAD_MIME"))
  {
    assert Lower("text/plain") == "text/plain";
  }

  /** 26 MiB of body in a correctly typed "dem.tif" is refused as ERR_SIZE_LIMIT. */
  lemma OversizeRejected(data: seq<byte>)
    requires |data| == 26 * 1024 * 1024
    ensures Rejection(UploadFile("dem.tif", Some("image/tiff"), data)) == Some((413, "ERR_SIZE_LIMIT"))
  {
    TiffSuffixAccepted("dem", ".tif");
    assert "dem" + ".tif" == "dem.tif";
    assert Lower(".tif") == ".tif";
    assert Lower("image/tiff") == "image/tiff";
  }

  /** Uploading an accepted, processable DEM to a new application and then asking for its
      results returns the finished record with the summary and histogram of the decoded
      DEM's slopes for the query's limits and axis. */
  method UploadThenResults(file: UploadFile, params: UploadParams, freshId: string,
                           decode: Decoder, hypot: (real, real) -> real)
    returns (r: Response<Job<LegacyStats>>)
    requires Rejection(file).None?
    requires ProcessInMemory(decode, hypot, file.data, params).Ok?
    ensures var d := decode(file.data).value;
      var report := LegacyProcessDem(hypot, d.band, d.resx, d.resy, d.nodata,
                                     params.runningSlopeMax, params.crossSlopeMax, params.assumedPathAxis).value;
      r == Success(Job("done", report.summary, Artifacts(report.histogram)))
  {
    var app := new LegacyApp();
    var up := app.UploadDem(file, params, freshId, decode, hypot);
    r := app.Results(freshId);
  }

  /** An upload that is refused or fails to process stores nothing: asking a new
      application for the id it would have used gives 404. */
  method FailedUploadStoresNothing(file: UploadFile, params: UploadParams, freshId: string,
                                   decode: Decoder, hypot: (real, real) -> real)
    returns (up: Response<string>, r: Response<Job<LegacyStats>>)
    requires Rejection(file).Some? || ProcessInMemory(decode, hypot, file.data, params).Err?
    ensures up.HttpError? && up.code in {400, 413, 500}
    ensures r == HttpError(404, "Job not found")
  {
    var app := new LegacyApp();
    up := app.UploadDem(file, params, freshId, decode, hypot);
    r := app.Results(freshId);
  }
}
