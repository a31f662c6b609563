/** The upload API of the current back end: an upload is checked only for its file
    name, processed, and stored in the module-level job table under a fresh id; the job's
    status and its results are read back by id. */
module BackendApi {
  import opened Numerics
  import opened Text
  import opened Upload
  import opened RasterSlope
  import opened RasterSummary

  /** The body of `GET /status/{job_id}`. */
  datatype JobStatus = JobStatus(jobId: string, status: string)

  const BadNameDetail := "Please upload a GeoTIFF (.tif/.tiff) DEM."

  /** The text of the ValueError `np.gradient` raises for an axis with fewer cells than
      its default `edge_order` of 1 plus one; `str(e)` puts it in the 500 detail. */
  const GradientTooSmall: string :=
    "Shape of array too small to calculate a numerical gradient, at least (edge_order + 1) elements are required."

  /** The default limits of `process_dem_in_memory`, as rise over run. */
  const DefaultRunningMax: real := 0.05
  const DefaultCrossMax: real := 0.02083

  /** `process_dem_in_memory(data)`: the body decoded by `decode` (`MemoryFile` and
      `read(1)`), then the slope statistics of `ProcessDem` with the default limits;
      `hypot` is the square root of the magnitude. An exception raised on the way is an
      `Err` carrying its text: the decoder's, or numpy's message for a band too small
      for `np.gradient` (the only way `ProcessDem` fails). */
  function ProcessInMemory(decode: Decoder, hypot: (real, real) -> real, data: seq<byte>)
    : (r: Result<Report, string>)
    ensures decode(data).Err? ==> r == Err(decode(data).error)
    ensures decode(data).Ok? ==>
      var d := decode(data).value;
      var p := ProcessDem(hypot, d.band, d.resx, d.resy, d.nodata, DefaultRunningMax, DefaultCrossMax);
      r == if p.Err? then Err(GradientTooSmall) else p
  {
    match decode(data)
    case Err(e) => Err(e)
    case Ok(d) =>
      match ProcessDem(hypot, d.band, d.resx, d.resy, d.nodata, DefaultRunningMax, DefaultCrossMax)
      case Err(_) => Err(GradientTooSmall)
      case Ok(report) => Ok(report)
  }

  /** A decoded upload is processed exactly when both axes of its band hold two cells;
      then it passes exactly when no valid slope cell exceeds 5 %. */
  lemma ProcessedUpload(decode: Decoder, hypot: (real, real) -> real, data: seq<byte>)
    requires decode(data).Ok?
    ensures var d := decode(data).value;
      ProcessInMemory(decode, hypot, data).Ok? <==> |d.band| >= 2 && Width(d.band) >= 2
    ensures var d := decode(data).value;
      var r := ProcessInMemory(decode, hypot, data);
      r.Ok? ==>
        var slope := RunningSlope(hypot, d.band, d.resx, d.resy, d.nodata).value;
        (r.value.summary.pass <==>
          forall i, j :: 0 <= i < |slope| && 0 <= j < |slope[i]| && slope[i][j].Some? ==> slope[i][j].value <= 5.0) &&
        r.value.summary.runningThresholdPct == 5.0
  {
    var d := decode(data).value;
    if ProcessInMemory(decode, hypot, data).Ok? {
      var slope := RunningSlope(hypot, d.band, d.resx, d.resy, d.nodata).value;
      PassIff(slope, DefaultRunningMax, DefaultCrossMax);
      DefaultThresholdsReported(slope);
      assert DefaultRunningMax * 100.0 == 5.0;
    }
  }

  /** The histogram of a processed upload has ten bins that count every valid cell. */
  lemma ProcessedUploadHistogram(decode: Decoder, hypot: (real, real) -> real, data: seq<byte>)
    requires IsHypot(hypot)
    ensures var r := ProcessInMemory(decode, hypot, data);
      r.Ok? ==> |r.value.histogram| == 10 && SumNat(r.value.histogram) == r.value.summary.pixelsTotal
  {
    if decode(data).Ok? {
      var d := decode(data).value;
      ProcessDemHistogramTotal(hypot, d.band, d.resx, d.resy, d.nodata, DefaultRunningMax, DefaultCrossMax);
    }
  }

  /** The detail of a processing failure. */
  function FailureDetail(e: string): (d: string)
    ensures |d| == 19 + |e|
    ensures d[..19] == "Processing failed: " && d[19..] == e
  {
    "Processing failed: " + e
  }

  /** A decoded band with fewer than two rows or columns fails in `np.gradient`, and the
      upload's 500 detail is numpy's message (`GradientTooSmall`) after "Processing failed: ". */
  lemma SmallBandDetail(decode: Decoder, hypot: (real, real) -> real, data: seq<byte>)
    requires decode(data).Ok?
    ensures var d := decode(data).value;
      var r := ProcessInMemory(decode, hypot, data);
      (r.Err? <==> |d.band| < 2 || Width(d.band) < 2) &&
      (r.Err? ==> r.error == GradientTooSmall && FailureDetail(r.error) == "Processing failed: " + GradientTooSmall)
  {
  }

  /** The application with its job table. */
  class BackendApp {
    var jobs: map<string, Job<Summary>>

    /** Every stored job is finished. */
    predicate Valid()
      reads this
    {
      forall id :: id in jobs ==> jobs[id].status == "done"
    }

    constructor()
      ensures jobs == map[]
      ensures Valid()
    {
      jobs := map[];
    }

    /** `POST /upload`. `freshId` stands for the new uuid4; `decode` and `hypot` for
        the decoding and the square root of the processing. The content type and the
        size are not looked at. */
    method UploadDem(file: UploadFile, freshId: string, decode: Decoder, hypot: (real, real) -> real)
      returns (r: Response<string>)
      requires Valid()
      modifies this
      ensures Valid()
      ensures !HasTiffExtension(file.filename) ==> r == HttpError(400, BadNameDetail) && jobs == old(jobs)
      ensures HasTiffExtension(file.filename) && ProcessInMemory(decode, hypot, file.data).Err? ==>
                r == HttpError(500, FailureDetail(ProcessInMemory(decode, hypot, file.data).error)) &&
                jobs == old(jobs)
      ensures HasTiffExtension(file.filename) && ProcessInMemory(decode, hypot, file.data).Ok? ==>
                var report := ProcessInMemory(decode, hypot, file.data).value;
                r == Success(freshId) && jobs == old(jobs)[freshId := StoredJob(report.summary, report.histogram)]
    {
      if !HasTiffExtension(file.filename) {
        return HttpError(400, BadNameDetail);
      }
      var data := file.data;
      var result := ProcessInMemory(decode, hypot, data);
      if result.Err? {
        return HttpError(500, FailureDetail(result.error));
      }
      jobs := jobs[freshId := StoredJob(result.value.summary, result.value.histogram)];
      r := Success(freshId);
    }

    /** `GET /status/{job_id}`. */
    method Status(jobId: string) returns (r: Response<JobStatus>)
      ensures Valid() && r.Success? ==> r.body.status == "done"
      ensures jobId in jobs ==> r == Success(JobStatus(jobId, jobs[jobId].status))
      ensures jobId !in jobs ==> r == HttpError(404, "Job not found")
    {
      var job := LookUp(jobs, jobId);
      if job.Success? {
        r := Success(JobStatus(jobId, job.body.status));
      } else {
        r := HttpError(job.code, job.detail);
      }
    }

    /** `GET /results/{job_id}`. */
    method Results(jobId: string) returns (r: Response<Job<Summary>>)
      ensures Valid() && r.Success? ==> r.body.status == "done"
      ensures r == LookUp(jobs, jobId)
    {
      r := LookUp(jobs, jobId);
    }
  }

  /** Uploading a processable ".tif" to a new application, the new id's status is "done"
      and its results are the summary and histogram of the decoded DEM's slope. */
  method UploadThenQuery(file: UploadFile, freshId: string, decode: Decoder, hypot: (real, real) -> real)
    returns (st: Response<JobStatus>, r: Response<Job<Summary>>)
    requires HasTiffExtension(file.filename) && ProcessInMemory(decode, hypot, file.data).Ok?
    ensures st == Success(JobStatus(freshId, "done"))
    ensures var d := decode(file.data).value;
      var report := ProcessDem(hypot, d.band, d.resx, d.resy, d.nodata, DefaultRunningMax, DefaultCrossMax).value;
      r == Success(Job("done", report.summary, Artifacts(report.histogram)))
  {
    var app := new BackendApp();
    var up := app.UploadDem(file, freshId, decode, hypot);
    st := app.Status(freshId);
    r := app.Results(freshId);
  }

  /** An upload with a wrong name or a failing processing stores nothing: the id it would
      have used is unknown to both queries. */
  method FailedUploadStoresNothing(file: UploadFile, freshId: string, decode: Decoder, hypot: (real, real) -> real)
    returns (up: Response<string>, st: Response<JobStatus>, r: Response<Job<Summary>>)
    requires !HasTiffExtension(file.filename) || ProcessInMemory(decode, hypot, file.data).Err?
    ensures up.HttpError? && up.code in {400, 500}
    ensures st == HttpError(404, "Job not found") && r == HttpError(404, "Job not found")
  {
    var app := new BackendApp();
    up := app.UploadDem(file, freshId, decode, hypot);
    st := app.Status(freshId);
    r := app.Results(freshId);
  }

  /** Unlike the legacy back end, a ".TIFF" upload of any content type and size reaches
      the processing. */
  lemma NameIsTheOnlyCheck(stem: string)
    ensures HasTiffExtension(stem + ".TIFF")
  {
    assert Lower(".TIFF") == ".tiff";
    TiffSuffixAccepted(stem, ".TIFF");
  }
}
