/** What the two upload back ends share: the uploaded file as the handler sees it, the
    decoded DEM, the HTTP outcome of a request, the job record and its look-up, and the
    case-insensitive GeoTIFF file-name test. */
module Upload {
  import opened Numerics
  import opened Text
  import opened RasterSlope

  newtype byte = x: int | 0 <= x < 256

  /** An upload as FastAPI hands it over: the client's file name, the optional content
      type and the bytes of the body. */
  datatype UploadFile = UploadFile(filename: string, contentType: Option<string>, data: seq<byte>)

  /** A handler's reply: the JSON body of a 200 response, or an `HTTPException` with its
      status code and detail. */
  datatype Response<T> = Success(body: T) | HttpError(code: nat, detail: string)

  /** Band 1 of a raster as numpy hands it over: a rectangular grid. */
  type Band = b: seq<seq<Float>> | Rect(b) witness []

  /** A GeoTIFF read from memory: band 1, the pixel sizes `src.res` and the declared
      nodata value. */
  datatype Dem = Dem(band: Band, resx: real, resy: real, nodata: Option<real>)

  /** Opening the uploaded bytes as a GeoTIFF and reading it; an exception raised while
      doing so is an `Err` carrying its text. */
  type Decoder = seq<byte> -> Result<Dem, string>

  datatype Artifacts = Artifacts(histogram: seq<nat>)

  /** A record of a job table, over the summary type of its back end. */
  datatype Job<S> = Job(status: string, summary: S, artifacts: Artifacts)

  /** The record both back ends store for a processed DEM. */
  function StoredJob<S>(summary: S, histogram: seq<nat>): (j: Job<S>)
    ensures j.status == "done"
    ensures j.summary == summary && j.artifacts.histogram == histogram
  {
    Job("done", summary, Artifacts(histogram))
  }

  /** `JOBS.get(job_id)` with the 404 for an unknown id, as both back ends do it. */
  function LookUp<S>(jobs: map<string, Job<S>>, id: string): (r: Response<Job<S>>)
    ensures id in jobs <==> r.Success?
    ensures r.Success? ==> r.body == jobs[id]
    ensures r.HttpError? ==> r == HttpError(404, "Job not found")
  {
    if id in jobs then Success(jobs[id]) else HttpError(404, "Job not found")
  }

  /** `name.lower().endswith((".tif", ".tiff"))`. */
  predicate HasTiffExtension(name: string) {
    EndsWith(Lower(name), ".tif") || EndsWith(Lower(name), ".tiff")
  }

  /** Any stem followed by ".tif" or ".tiff" in any mix of case passes the test. */
  lemma TiffSuffixAccepted(stem: string, ext: string)
    requires Lower(ext) == ".tif" || Lower(ext) == ".tiff"
    ensures HasTiffExtension(stem + ext)
  {
    var name := stem + ext;
    assert name[|stem|..] == ext;
    LowerSuffix(name, |stem|);
    assert Lower(name)[|stem|..] == Lower(ext);
    assert |Lower(name)| == |name|;
  }

  /** A ".txt" file never passes, whatever its stem. */
  lemma TxtRejected(stem: string)
    ensures !HasTiffExtension(stem + ".txt")
  {
    var name := stem + ".txt";
    var low := Lower(name);
    assert |low| == |name| == |stem| + 4;
    assert low[|low| - 1] == 't' && low[|low| - 2] == 'x' && low[|low| - 4] == '.';
    assert low[|low| - 4..] == ".txt";
    if |low| >= 5 {
      assert low[|low| - 5..][1] == '.';
    }
  }
}
