/**
 * The pure decisions of the handlers in app/main.py: the metadata derived on
 * upload, the `exif_json` column, the record an upload stores, and how the
 * two retrieval handlers answer from a stored record.
 */
module Api {
  import opened Wrappers
  import opened Base64
  import opened Exif
  import opened Services

  // ---------------------------------------------------------------------------
  // Format token

  function LowerChar(c: char): char
  {
    if 'A' <= c <= 'Z' then (c as int - 'A' as int + 'a' as int) as char else c
  }

  predicate NoUpper(s: string)
  {
    forall i | 0 <= i < |s| :: !('A' <= s[i] <= 'Z')
  }

  /** `str.lower()` on the ASCII names Pillow gives its formats. */
  function Lower(s: string): (r: string)
    ensures |r| == |s|
    ensures forall i | 0 <= i < |s| :: r[i] == LowerChar(s[i])
    ensures NoUpper(r)
  {
    if s == [] then [] else [LowerChar(s[0])] + Lower(s[1..])
  }

  /** `(pil_img.format or "unknown").lower()`: never empty, never upper case. */
  function FormatToken(format: Option<string>): (r: string)
    ensures r != "" && NoUpper(r)
    ensures format.None? || format.value == "" ==> r == "unknown"
    ensures format.Some? && format.value != "" ==> |r| == |format.value|
    ensures format.Some? && format.value != "" ==>
              forall i | 0 <= i < |r| :: r[i] == LowerChar(format.value[i])
  {
    Lower(if format.None? || format.value == "" then "unknown" else format.value)
  }

  /** Normalising a token twice gives the token: stored formats are already normal. */
  lemma FormatTokenIdempotent(format: Option<string>)
    ensures FormatToken(Some(FormatToken(format))) == FormatToken(format)
  {
    var t := FormatToken(format);
    assert forall i | 0 <= i < |t| :: LowerChar(t[i]) == t[i];
    assert Lower(t) == t;
  }

  /** The tokens the upload tests expect for a JPEG and a PNG. */
  lemma FormatTokenOfTests()
    ensures FormatToken(Some("JPEG")) == "jpeg"
    ensures FormatToken(Some("PNG")) == "png"
    ensures FormatToken(None) == "unknown"
  {
    var jpeg, png, unknown := Lower("JPEG"), Lower("PNG"), Lower("unknown");
    assert jpeg[0] == 'j' && jpeg[1] == 'p' && jpeg[2] == 'e' && jpeg[3] == 'g';
    assert png[0] == 'p' && png[1] == 'n' && png[2] == 'g';
    assert forall i | 0 <= i < 7 :: unknown[i] == "unknown"[i];
  }

  // ---------------------------------------------------------------------------
  // Records

  /** What `Image.open` reports: `pil_img.size` and `pil_img.format`. */
  datatype ImageInfo = ImageInfo(width: int, height: int, format: Option<string>)

  /** The two renditions `generate_thumbnails` returns. */
  datatype Thumbnails = Thumbnails(small: seq<byte>, medium: seq<byte>)

  /** The text `json.dumps` produced for a tree; the text itself is not modelled. */
  datatype JsonText = Dumped(tree: Value)

  /** A row of the `images` table (app/models.py); nullable columns are Options. */
  datatype ImageRecord = ImageRecord(
    imageId: string,
    status: string,
    originalName: Option<string>,
    uploadedAt: string,
    width: int,
    height: int,
    format: Option<string>,
    sizeBytes: int,
    caption: string,
    exifData: Option<JsonText>,
    thumbSmall: Option<seq<byte>>,
    thumbMedium: Option<seq<byte>>)

  /** The step of `upload_image` whose exception ends in the failure response. */
  datatype Stage =
    | DecodeFailed          // Image.open, line 62
    | ExifNotSerializable   // json.dumps, line 70
    | ThumbnailsFailed      // generate_thumbnails, line 73
    | CaptionFailed         // generate_caption, line 76
    | DuplicateImageId      // the unique image_id column at commit, line 98
    | ResponseFailed        // building the success response, lines 103-130

  /**
   * Everything `upload_image` gets from outside: the buffer, the client's
   * filename, and what each collaborator yields for it (None where the call
   * raises), plus the generated id and timestamp.
   */
  datatype UploadInput = UploadInput(
    raw: seq<byte>,
    filename: Option<string>,
    image: Option<ImageInfo>,
    exif: ExifSource,
    thumbs: Option<Thumbnails>,
    caption: Option<string>,
    imageId: string,
    processedAt: string)

  /** `exif_json`: null exactly when there is no EXIF; json.dumps raises on bytes or rationals. */
  function ExifJson(exif: Option<Value>): (r: Result<Option<JsonText>, Stage>)
    ensures r.Success? && r.value.None? <==> exif.None?
    ensures r.Failure? <==> exif.Some? && !Serializable(exif.value)
    ensures r.Success? && r.value.Some? ==> r.value.value.tree == exif.value && Serializable(exif.value)
  {
    match exif
    case None => Success(None)
    case Some(tree) => if Serializable(tree) then Success(Some(Dumped(tree))) else Failure(ExifNotSerializable)
  }

  /**
   * Lines 59-98 of `upload_image`: the record that is committed, or the
   * stage that raised first. `exif` is what `get_exif_data` returned and
   * `taken` the image ids already stored.
   */
  function Ingest(input: UploadInput, exif: Option<Value>, taken: set<string>): Result<ImageRecord, Stage>
  {
    if input.image.None? then Failure(DecodeFailed)
    else
      var info := input.image.value;
      match ExifJson(exif)
      case Failure(stage) => Failure(stage)
      case Success(json) =>
        if input.thumbs.None? then Failure(ThumbnailsFailed)
        else if input.caption.None? then Failure(CaptionFailed)
        else if input.imageId in taken then Failure(DuplicateImageId)
        else Success(ImageRecord(
          input.imageId, "processed", input.filename, input.processedAt,
          info.width, info.height, Some(FormatToken(info.format)), |input.raw|,
          input.caption.value, json,
          Some(input.thumbs.value.small), Some(input.thumbs.value.medium)))
  }

  /**
   * An upload commits exactly when every step succeeds, and the record it
   * commits carries the buffer's own length, the normalised format, the
   * thumbnails generated, and an EXIF column that is null exactly when
   * there was no EXIF.
   */
  lemma IngestCommits(input: UploadInput, exif: Option<Value>, taken: set<string>)
    ensures Ingest(input, exif, taken).Success? <==>
              && input.image.Some?
              && (exif.None? || Serializable(exif.value))
              && input.thumbs.Some?
              && input.caption.Some?
              && input.imageId !in taken
    ensures Ingest(input, exif, taken).Success? ==>
              var rec := Ingest(input, exif, taken).value;
              && rec.imageId == input.imageId
              && rec.sizeBytes == |input.raw|
              && rec.format == Some(FormatToken(input.image.value.format))
              && (rec.exifData.None? <==> exif.None?)
              && (rec.exifData.Some? ==> rec.exifData.value.tree == exif.value)
              && rec.thumbSmall == Some(input.thumbs.value.small)
              && rec.thumbMedium == Some(input.thumbs.value.medium)
  {
  }

  /**
   * As written, an upload whose EXIF holds a tuple of rationals (GPS data)
   * fails at json.dumps even though `get_exif_data` succeeded.
   */
  lemma UploadFailsOnTupleRationals(input: UploadInput, taken: set<string>)
    requires input.image.Some?
    ensures var exif := Dict(map[Name("GPSInfo") := Dict(map[Id(2) := Tuple([Rational(35, 1), Rational(40, 1), Rational(1234, 100)])])]);
            Ingest(input, Some(Sanitize(exif)), taken) == Failure(ExifNotSerializable)
  {
    SanitizeKeepsRationalsInTuples();
  }

  /** With the corrected sanitiser the json.dumps step cannot fail. */
  lemma CorrectedExifAlwaysSerializes(input: UploadInput, tree: Value, taken: set<string>)
    requires input.image.Some?
    ensures Ingest(input, Some(SanitizeAll(tree)), taken) != Failure(ExifNotSerializable)
  {
  }

  // ---------------------------------------------------------------------------
  // Responses

  /** The `metadata` object of the upload response. */
  datatype Metadata = Metadata(width: int, height: int, format: Option<string>, sizeBytes: int)

  datatype UploadResponse =
    | UploadSuccess(imageId: string, originalName: Option<string>, processedAt: string,
                    metadata: Metadata, exif: Option<Value>, caption: string)
    | UploadFailure(stage: Stage)
  {
    /** 200 for the success body; every failing stage becomes an HTTP 400. */
    function StatusCode(): (r: int)
      ensures r == 200 <==> UploadSuccess?
      ensures r == 400 <==> UploadFailure?
    {
      if UploadSuccess? then 200 else 400
    }
  }

  /** The response body of a committed upload; its `exif_data` is the tree itself, null when absent. */
  function SuccessResponse(rec: ImageRecord, exif: Option<Value>): UploadResponse
  {
    UploadSuccess(rec.imageId, rec.originalName, rec.uploadedAt,
                  Metadata(rec.width, rec.height, rec.format, rec.sizeBytes),
                  exif, rec.caption)
  }

  datatype HttpError = HttpError(code: int, detail: string)

  /** What `get_image_details` reports as `exif_data`: `{}` or `json.loads` of the stored text. */
  datatype ExifReport = EmptyObject | Loaded(text: JsonText)

  datatype Details = Details(
    imageId: string, originalName: Option<string>, status: string, processedAt: string,
    metadata: Metadata, caption: string, exif: ExifReport)

  /**
   * `get_image_details`: 404 for an unknown id; otherwise the stored fields,
   * with a null EXIF column reported as `{}`.
   */
  function ImageDetails(db: map<string, ImageRecord>, id: string): (r: Result<Details, HttpError>)
    ensures r.Failure? <==> id !in db
    ensures r.Failure? ==> r.error == HttpError(404, "Image not found")
    ensures r.Success? ==> (r.value.exif == EmptyObject <==> db[id].exifData.None?)
    ensures r.Success? && db[id].exifData.Some? ==> r.value.exif == Loaded(db[id].exifData.value)
    ensures r.Success? ==> r.value.metadata.format == db[id].format
  {
    if id !in db then Failure(HttpError(404, "Image not found"))
    else
      var rec := db[id];
      Success(Details(rec.imageId, rec.originalName, rec.status, rec.uploadedAt,
                      Metadata(rec.width, rec.height, rec.format, rec.sizeBytes),
                      rec.caption,
                      if rec.exifData.Some? then Loaded(rec.exifData.value) else EmptyObject))
  }

  /**
   * Absent EXIF reads differently on the two paths: the upload response
   * says null, the details of the same stored record say `{}`.
   */
  lemma NullOnUploadEmptyOnDetails(input: UploadInput, taken: set<string>, db: map<string, ImageRecord>)
    requires Ingest(input, None, taken).Success?
    ensures var rec := Ingest(input, None, taken).value;
            && SuccessResponse(rec, None).exif == None
            && ImageDetails(db[rec.imageId := rec], rec.imageId).Success?
            && ImageDetails(db[rec.imageId := rec], rec.imageId).value.exif == EmptyObject
  {
  }

  /** A streamed thumbnail: the stored bytes and their media type. */
  datatype Stream = Stream(body: seq<byte>, mediaType: string)

  /** `f"image/{record.format or 'jpeg'}"`. */
  function MediaType(format: Option<string>): (r: string)
    ensures |r| > 6 && r[..6] == "image/"
    ensures format.None? || format.value == "" ==> r[6..] == "jpeg"
    ensures format.Some? && format.value != "" ==> r[6..] == format.value
  {
    "image/" + (if format.None? || format.value == "" then "jpeg" else format.value)
  }

  /**
   * `get_thumbnail`: the record is looked up first, so an unknown id is 404
   * whatever the size; then any size but "small" or "medium" is 400; then
   * missing or empty bytes for the chosen tier are 404.
   */
  function GetThumbnail(db: map<string, ImageRecord>, id: string, size: string): (r: Result<Stream, HttpError>)
    ensures id !in db ==> r == Failure(HttpError(404, "Image not found"))
    ensures id in db && size != "small" && size != "medium" ==> r == Failure(HttpError(400, "Invalid thumbnail size"))
    ensures id in db && size == "small" ==>
              if db[id].thumbSmall.None? || db[id].thumbSmall.value == [] then r == Failure(HttpError(404, "Thumbnail not available"))
              else r == Success(Stream(db[id].thumbSmall.value, MediaType(db[id].format)))
    ensures id in db && size == "medium" ==>
              if db[id].thumbMedium.None? || db[id].thumbMedium.value == [] then r == Failure(HttpError(404, "Thumbnail not available"))
              else r == Success(Stream(db[id].thumbMedium.value, MediaType(db[id].format)))
  {
    if id !in db then Failure(HttpError(404, "Image not found"))
    else if size != "small" && size != "medium" then Failure(HttpError(400, "Invalid thumbnail size"))
    else
      var rec := db[id];
      var thumb := if size == "small" then rec.thumbSmall else rec.thumbMedium;
      if thumb.None? || thumb.value == [] then Failure(HttpError(404, "Thumbnail not available"))
      else Success(Stream(thumb.value, MediaType(rec.format)))
  }

  /**
   * After an upload commits, each tier streams exactly the bytes generated
   * for it (when non-empty), as "image/" followed by the normalised format,
   * which is never empty, so the "jpeg" default never applies to uploaded
   * records.
   */
  lemma ThumbnailAfterUpload(input: UploadInput, exif: Option<Value>, db: map<string, ImageRecord>)
    requires Ingest(input, exif, db.Keys).Success?
    ensures var rec := Ingest(input, exif, db.Keys).value;
            var db' := db[rec.imageId := rec];
            var media := "image/" + FormatToken(input.image.value.format);
            && (input.thumbs.value.small != [] ==>
                  GetThumbnail(db', input.imageId, "small") == Success(Stream(input.thumbs.value.small, media)))
            && (input.thumbs.value.medium != [] ==>
                  GetThumbnail(db', input.imageId, "medium") == Success(Stream(input.thumbs.value.medium, media)))
  {
  }

  // ---------------------------------------------------------------------------
  // Statistics

  /** `total_time / success_count if success_count > 0 else 0`: never a division by zero. */
  function Average(totalTime: real, successCount: nat): (r: real)
    ensures successCount == 0 ==> r == 0.0
    ensures successCount > 0 ==> r * successCount as real == totalTime
  {
    if successCount > 0 then totalTime / successCount as real else 0.0
  }
}
