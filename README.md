# Image upload service: EXIF sanitising and handler bookkeeping

This project models the core of a small image-forensics service, written in
Python with FastAPI and Pillow, and proves properties of that model.

- `app/services.py` turns decoded EXIF data into a JSON-safe tree.
  - `get_exif_data` renames every raw tag id through Pillow's `TAGS` table, falling back to the id itself.
  - It returns None when there is no EXIF or when anything raises.
  - `exif_data_to_serializable` then rebuilds dicts and lists, turns an `IFDRational` into a float and turns `bytes` into Base64 text.
  - `HTX/app/services.py` is a byte-identical copy, so every statement about one file holds for the other. Rows below cite whichever of the two paths fits.
- `app/main.py` is the HTTP layer.
  - The upload handler counts requests in `STATS_DB`, derives the metadata (format token, size) and serialises the EXIF.
  - It commits one `images` row and counts a success or a failure.
  - The retrieval handlers answer from the stored row, choosing a thumbnail tier and defaulting absent EXIF to `{}`.

Files:

- `wrappers.dfy`: `Option` and `Result`.
- `base64.dfy`: Base64 as defined in section 4 of RFC 4648 (standard alphabet, `=` padding). It has an encoder, a strict decoder, both round trips and the test vectors of section 10.
- `exif.dfy`: the value tree Pillow produces: dicts, lists, tuples, rationals, bytes and scalars. It also defines what `json.dumps` accepts and a dict-key / list-index path lookup.
- `services.dfy`: the sanitiser and its properties, a corrected sanitiser (see Findings), and the `get_exif_data` loop as a method. The loop is proved against a specification function.
- `api.dfy`: the pure decisions of `app/main.py`: format token, `exif_json`, the committed record, `get_image_details`, `get_thumbnail` and the stats average.
- `server.dfy`: the in-place state of `app/main.py`. The class `ImageService` holds the `STATS_DB` counters and the `images` table. Its `Upload` and `GetStats` methods model `upload_image` and `get_stats`.

## Model

| member | source | states |
|---|---|---|
| Base64.Encode | app/services.py:40-41 | the Base64 text of n bytes has 4·⌈n/3⌉ characters; exactly the last (3 − n mod 3) mod 3 of them are `=`; every other character is in the RFC 4648 alphabet |
| Base64.DecodeEncode | HTX/app/services.py:40-41 | decoding the Base64 text of any byte string gives back that byte string |
| Base64.EncodeDecode | app/services.py:41 | every text the strict decoder accepts is exactly the encoding of what it decodes to, so encoding is a bijection onto canonical Base64 |
| Base64.TestVectors | HTX/app/services.py:41 | the encoder reproduces all seven section 10 test vectors of RFC 4648 ("", "Zg==", "Zm8=", "Zm9v", "Zm9vYg==", "Zm9vYmE=", "Zm9vYmFy") |
| Services.Sanitize | app/services.py:26-42 | a dict becomes a dict with the same keys, each value sanitised; a list becomes a list of the same length, element i sanitised; a rational becomes the float of the same quotient; bytes become Base64 text of length 4·⌈n/3⌉ that decodes back to the bytes; anything else, tuples included, is returned unchanged |
| Services.SanitizeIdempotent | HTX/app/services.py:33-42 | sanitising an already sanitised value returns it unchanged |
| Services.SanitizeLeavesNoRaw | app/services.py:33-42 | if every container in the input is a dict or a list, the output holds no bytes and no rational at any depth |
| Services.SanitizeLookup | HTX/app/services.py:33-36 | a dict-key / list-index path reaches a value in the output exactly when it reaches one in the input, and it reaches the sanitised input value, so keys, order and lengths are kept at every depth |
| Services.BytesAtPathDecodeBack | HTX/app/services.py:38-41 | bytes anywhere below dicts and lists come out as text that Base64-decodes to the original bytes |
| Services.SanitizeKeepsRationalsInTuples | app/services.py:37-42 | a GPS block whose GPSLatitude (tag 2) is a tuple of rationals passes through unchanged, and the sanitised tree is still not JSON-serialisable |
| Services.SanitizeAll | HTX/app/services.py:26-42 | the corrected sanitiser, which also rebuilds tuples, always yields a tree `json.dumps` accepts |
| Services.SanitizeAllAgrees | app/services.py:35-36 | on trees without tuples the corrected sanitiser equals the one as written |
| Services.RenamedKeys | app/services.py:55-58 | the dict built by the loop has exactly the keys `TAGS[id]`, or `id` when the table lacks it, over the raw tag ids |
| Services.RenamedSize | HTX/app/services.py:55-58 | the built dict has at most as many keys as there were raw tags, and at least one when there was one |
| Services.RenamedLastWins | app/services.py:56-58 | a name holds the value of the last raw tag renamed to it (later entries overwrite earlier ones) |
| Services.ExifDataShape | HTX/app/services.py:49-64 | the result is None exactly for an unreadable image, missing EXIF or empty EXIF; otherwise it is a non-empty dict keyed by tag names or unmapped ids, no larger than the raw EXIF |
| Services.GetExifData | app/services.py:44-64 | the loop-built dict, sanitised, equals the specification, with None exactly on failure or no/empty EXIF and a non-empty dict otherwise |
| Api.FormatToken | app/main.py:64 | the format token is never empty and has no upper-case letters; it is "unknown" when the decoder reports no format, otherwise it is the reported name lower-cased, character by character, with the same length |
| Api.FormatTokenIdempotent | app/main.py:62-64 | normalising an already normalised token gives the token |
| Api.FormatTokenOfTests | tests/test_app.py:67-68 | "JPEG" gives "jpeg", "PNG" gives "png", no format gives "unknown" |
| Api.ExifJson | app/main.py:68-70 | `exif_json` is null exactly when the EXIF is None; `json.dumps` raises exactly when the tree holds bytes or a rational |
| Api.IngestCommits | app/main.py:58-99 | an upload commits exactly when decoding, `json.dumps`, thumbnails and caption succeed and the id is new; the record has `size_bytes` equal to the buffer's length, the normalised format, the generated thumbnails, and a null EXIF column exactly when there was no EXIF |
| Api.UploadFailsOnTupleRationals | app/main.py:68-70 | as written, a decodable upload whose EXIF GPS block holds a tuple of rationals fails at `json.dumps` |
| Api.CorrectedExifAlwaysSerializes | app/main.py:70 | with the corrected sanitiser, `json.dumps` never fails |
| Api.ImageDetails | app/main.py:153-183 | an unknown id gives 404 "Image not found"; otherwise the EXIF is reported as `{}` exactly when the stored column is null, and otherwise as the stored text; the reported format is the stored column, null included |
| Api.UploadResponse.StatusCode | app/main.py:130-139 | the status is 200 exactly for the success body and 400 exactly for a failing stage |
| Api.NullOnUploadEmptyOnDetails | app/main.py:160-162 | for an upload without EXIF, the upload response says null but the details of the stored record say `{}` |
| Api.MediaType | app/main.py:200 | the media type is "image/" followed by the stored format, or by "jpeg" when the format is null or empty |
| Api.GetThumbnail | app/main.py:185-202 | an unknown id gives 404 whatever the size; then any size other than "small"/"medium" gives 400; "small" selects `thumb_small` and "medium" selects `thumb_medium`; missing or empty bytes give 404 "Thumbnail not available"; otherwise the stored bytes are streamed with the media type |
| Api.ThumbnailAfterUpload | app/main.py:195-200 | after a committed upload, each tier with non-empty bytes streams exactly the generated bytes as "image/" plus the normalised format |
| Api.Average | app/main.py:210 | the average is 0 when nothing has succeeded, and otherwise average × success_count = total time (no division by zero) |
| Server.Tally | app/main.py:56-135 | each call adds 1 to `total_requests`; success adds 1 to `success_count`; an exception adds 1 to `failure_count`; an exception after line 102 adds to both |
| Server.TallyAllCounts | app/main.py:100-135 | after any sequence of uploads, `total_requests` grew by their number, and success + failure grew by that number plus one per upload that raised after line 102 |
| Server.BalancedIffNoLateFailure | app/main.py:102-135 | starting from zero, total = success + failure holds exactly when no upload raised after its success was counted |
| Server.ImageService.constructor | app/main.py:37-42 | at start-up the counters and the total time are zero and the table is empty |
| Server.ImageService.Upload | app/main.py:44-144 | the table gains the committed record exactly on commit; the counters move as Tally says; the total time adds the clock readings taken; the response is the success body or the failing stage, with status 200 exactly when the call counted a success and did not raise; balance is kept whenever the response builds |
| Server.ImageService.GetImageDetails | app/main.py:153-183 | details are found exactly for a stored id, and, since every record is stored under its own `image_id`, they carry the id asked for |
| Server.ImageService.GetStats | app/main.py:204-221 | the report carries the three counters; the average is 0 when `success_count` is 0 and otherwise times `success_count` equals the total time |

## Left out

- Image decoding, thumbnail resampling and re-encoding, and caption generation (Pillow and the BLIP model). Each is a parameter of `UploadInput`: what `Image.open` reports, the two thumbnail byte strings and the caption, with None where the call raises.
- Pillow's `TAGS` table is a parameter of `GetExifData`. The outcome of `Image.open` / `_getexif()` is the `ExifSource` input.
- `compute_sha256` (app/services.py:20-24) is not called by any handler and is a foreign call to hashlib.
- `json.dumps` / `json.loads`: the stored text is kept abstract (`JsonText`). Only whether `json.dumps` raises is modelled, and `get_image_details` reports the loaded text symbolically. Integer keys turned into strings and tuples turned into arrays by the round trip are not modelled.
- Api.ImageDetails: the null-or-empty test on the EXIF column is modelled as the null test only, because `json.dumps` never produces an empty string, so an empty column cannot come from an upload.
- Rational to float: `Float(num, den)` keeps the quotient symbolically. Floating-point rounding and Pillow's zero-denominator behaviour are not modelled.
- Api.FormatToken: lower-cases ASCII letters only (Pillow's format names are ASCII), not the whole Unicode `str.lower()`.
- Api.Average: uses exact real division, not floating point. `total_processing_time` is the exact sum of the clock readings passed in.
- Server.ImageService.Upload: calls are modelled as atomic and sequential. FastAPI runs the plain `def` handlers (app/main.py:45, 205) in a thread pool, so `get_stats` can read `STATS_DB` while an upload is between its `total_requests` increment (line 56) and its success or failure count (line 102 or 134), and then see `total_requests` > `success_count` + `failure_count` with no late failure. `BalancedIffNoLateFailure` holds only when no upload is in flight; the unsynchronised `+=` races between threads are not modelled either.
- Server.ImageService.Upload: the only commit failure modelled is a duplicate `image_id` (a unique column). Other database errors are not modelled. Whether building the success response raises is a parameter. `uuid`, timestamps and the clock are parameters.
- `list_images` (app/main.py:146-151) is a plain projection of the table with no decision in it.
- Logging, FastAPI routing, the startup hook, HTTP response construction, and the session plumbing of HTX/app/database.py. HTX/app/schemas.py is not used by the code.
- Python's recursion limit on very deep trees is not modelled: the sanitiser is total here.
- Dict key order is not modelled: the model's maps are unordered.

## Findings

| source | as written | input that shows it | evidently intended | confidence | as-written member | corrected member |
|---|---|---|---|---|---|---|
| app/services.py:37-42 | tuples are returned unchanged, so an IFDRational or bytes inside a tuple reaches `json.dumps` at app/main.py:70, which raises; the upload then fails with 400 | EXIF whose GPSInfo block (a nested dict keyed by tag id) has tag 2, GPSLatitude, = (35/1, 40/1, 1234/100), a tuple of IFDRational as Pillow returns multi-valued tags | sanitise tuple elements as list elements are sanitised, so that the result is JSON-serialisable, as the docstring at app/services.py:31 promises | medium, not executed | Services.SanitizeKeepsRationalsInTuples | Services.SanitizeAll |

`Api.UploadFailsOnTupleRationals` shows the failing upload with the sanitiser as written. `Api.CorrectedExifAlwaysSerializes` shows that the corrected sanitiser removes it. The upload model (`GetExifData`, `Server.ImageService.Upload`) keeps the sanitiser as written so that it matches the handler's observable behaviour.
