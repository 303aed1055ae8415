/**
 * The state app/main.py changes in place: the `STATS_DB` counters and the
 * `images` table. `upload_image` counts every call, commits a record when
 * every step succeeds, and counts a success or a failure; `get_stats` reads
 * the counters.
 */
module Server {
  import opened Wrappers
  import opened Exif
  import opened Services
  import opened Api

  /** The three integer counters of `STATS_DB`. */
  datatype Counters = Counters(total: nat, success: nat, failure: nat)

  /**
   * How one call of `upload_image` ends for the counters: an exception
   * before line 102, the normal success path, or an exception raised while
   * building the success response, after line 102 has already counted it.
   */
  datatype Effect = Failed | Succeeded | FailedAfterSuccess

  function EffectOf(run: Result<ImageRecord, Stage>, responseFails: bool): Effect
  {
    if run.Failure? then Failed else if responseFails then FailedAfterSuccess else Succeeded
  }

  /** Every call adds one to `total_requests`; each outcome adds to the matching counters. */
  function Tally(c: Counters, e: Effect): (r: Counters)
    ensures r.total == c.total + 1
    ensures r.success == c.success + (if e == Failed then 0 else 1)
    ensures r.failure == c.failure + (if e == Succeeded then 0 else 1)
  {
    match e
    case Failed => Counters(c.total + 1, c.success, c.failure + 1)
    case Succeeded => Counters(c.total + 1, c.success + 1, c.failure)
    case FailedAfterSuccess => Counters(c.total + 1, c.success + 1, c.failure + 1)
  }

  predicate Balanced(c: Counters)
  {
    c.total == c.success + c.failure
  }

  /** The counters after a run of uploads, in order. */
  function TallyAll(c: Counters, effects: seq<Effect>): Counters
    decreases |effects|
  {
    if effects == [] then c else TallyAll(Tally(c, effects[0]), effects[1..])
  }

  /** How many uploads raised after their success had been counted. */
  function LateFailures(effects: seq<Effect>): nat
    decreases |effects|
  {
    if effects == [] then 0
    else (if effects[0] == FailedAfterSuccess then 1 else 0) + LateFailures(effects[1..])
  }

  /**
   * After any run of uploads, `total_requests` grew by the number of calls
   * and success + failure grew by that number plus one for every call that
   * raised after line 102.
   */
  lemma {:induction false} TallyAllCounts(c: Counters, effects: seq<Effect>)
    ensures TallyAll(c, effects).total == c.total + |effects|
    ensures TallyAll(c, effects).success + TallyAll(c, effects).failure ==
            c.success + c.failure + |effects| + LateFailures(effects)
    decreases |effects|
  {
    if effects != [] {
      TallyAllCounts(Tally(c, effects[0]), effects[1..]);
    }
  }

  /**
   * Starting from zero, total = success + failure holds exactly when no
   * upload raised after its success was counted.
   */
  lemma BalancedIffNoLateFailure(effects: seq<Effect>)
    ensures Balanced(TallyAll(Counters(0, 0, 0), effects)) <==> LateFailures(effects) == 0
  {
    TallyAllCounts(Counters(0, 0, 0), effects);
  }

  /** The `data` object of `get_stats`. */
  datatype StatsReport = StatsReport(totalRequests: nat, successCount: nat, failureCount: nat, averageTime: real)

  class ImageService {
    /** The `images` table, keyed by `image_id` (a unique column). */
    var images: map<string, ImageRecord>
    var totalRequests: nat
    var successCount: nat
    var failureCount: nat
    /** Seconds, as the exact sum of the clock readings (no floating-point rounding). */
    var totalProcessingTime: real

    ghost predicate Valid()
      reads this
    {
      forall id | id in images :: images[id].imageId == id
    }

    function Stats(): Counters
      reads this
    {
      Counters(totalRequests, successCount, failureCount)
    }

    /** The process at start-up: an empty table and `STATS_DB` all zero. */
    constructor ()
      ensures Valid()
      ensures images == map[] && Stats() == Counters(0, 0, 0) && totalProcessingTime == 0.0
    {
      images := map[];
      totalRequests, successCount, failureCount := 0, 0, 0;
      totalProcessingTime := 0.0;
    }

    /**
     * `upload_image`. `elapsed` is the clock reading of line 101,
     * `elapsedAtError` that of line 133, and `responseFails` says whether
     * building the success response raises.
     */
    method Upload(tags: map<int, string>, input: UploadInput, elapsed: real, elapsedAtError: real, responseFails: bool)
      returns (resp: UploadResponse)
      requires Valid()
      modifies this
      ensures Valid()
      ensures images == (var run := Ingest(input, ExifData(tags, input.exif), old(images).Keys);
                         if run.Success? then old(images)[input.imageId := run.value] else old(images))
      ensures Stats() == Tally(old(Stats()), EffectOf(Ingest(input, ExifData(tags, input.exif), old(images).Keys), responseFails))
      ensures totalProcessingTime ==
                (var run := Ingest(input, ExifData(tags, input.exif), old(images).Keys);
                 old(totalProcessingTime)
                 + (if run.Success? then elapsed else 0.0)
                 + (if EffectOf(run, responseFails) == Succeeded then 0.0 else elapsedAtError))
      ensures resp == (var run := Ingest(input, ExifData(tags, input.exif), old(images).Keys);
                       if run.Failure? then UploadFailure(run.error)
                       else if responseFails then UploadFailure(ResponseFailed)
                       else SuccessResponse(run.value, ExifData(tags, input.exif)))
      ensures Balanced(old(Stats())) && !responseFails ==> Balanced(Stats())
      ensures resp.StatusCode() == 200 <==>
                EffectOf(Ingest(input, ExifData(tags, input.exif), old(images).Keys), responseFails) == Succeeded
    {
      ghost var expected := Ingest(input, ExifData(tags, input.exif), images.Keys);
      IngestCommits(input, ExifData(tags, input.exif), images.Keys);
      totalRequests := totalRequests + 1;
      if input.image.None? {
        assert expected == Failure(DecodeFailed);
        failureCount := failureCount + 1;
        totalProcessingTime := totalProcessingTime + elapsedAtError;
        return UploadFailure(DecodeFailed);
      }
      var exif := GetExifData(tags, input.exif);
      var run := Ingest(input, exif, images.Keys);
      assert run == expected;
      if run.Failure? {
        failureCount := failureCount + 1;
        totalProcessingTime := totalProcessingTime + elapsedAtError;
        return UploadFailure(run.error);
      }
      assert run.value.imageId == input.imageId;
      images := images[input.imageId := run.value];
      successCount := successCount + 1;
      totalProcessingTime := totalProcessingTime + elapsed;
      if responseFails {
        failureCount := failureCount + 1;
        totalProcessingTime := totalProcessingTime + elapsedAtError;
        return UploadFailure(ResponseFailed);
      }
      resp := SuccessResponse(run.value, exif);
    }

    /**
     * `get_image_details` on the current table. Since every record is stored
     * under its own `image_id`, the details found for an id carry that id.
     */
    method GetImageDetails(id: string) returns (r: Result<Details, HttpError>)
      requires Valid()
      ensures r == ImageDetails(images, id)
      ensures r.Success? <==> id in images
      ensures r.Success? ==> r.value.imageId == id
    {
      r := ImageDetails(images, id);
    }

    /** `get_stats`: the counters and an average that is 0 while nothing has succeeded. */
    method GetStats() returns (report: StatsReport)
      ensures report.totalRequests == totalRequests
      ensures report.successCount == successCount
      ensures report.failureCount == failureCount
      ensures successCount == 0 ==> report.averageTime == 0.0
      ensures successCount > 0 ==> report.averageTime * successCount as real == totalProcessingTime
    {
      report := StatsReport(totalRequests, successCount, failureCount, Average(totalProcessingTime, successCount));
    }
  }
}
