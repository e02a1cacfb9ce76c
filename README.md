# Missing-person face matcher: a Dafny model

This project models the decision core of a missing-persons identification web
application. Users register a person with a reference photo. The app stores
that photo's face encoding. Later a probe image, either an uploaded file or a
camera capture sent as a data URL, is compared against every stored
encoding.

The model covers these parts:

- **Matcher** (`matcher.dfy`, module `Matcher`). The nested scan in
  `search_person` and `camera_search` loops over the probe's encodings (outer)
  and the registered persons (inner). It skips persons without an encoding and
  keeps the pair with the globally smallest distance strictly below
  `FACIAL_TOLERANCE = 0.6`. The first pair in scan order wins ties. The scan is
  the method `FindBestMatch`. It is proved equal to the fold `BestMatch`, and
  `BestMatch` is proved to meet a declarative argmin-under-tolerance
  specification (`IsBestMatch`). The confidence score
  `int(max(1, 100*(1 - d/0.6)))` is `Score`.
- **Alert decision** (`alert.dfy`, module `Alert`). This is `send_alert_sms`.
  It checks first whether the SMS client is configured, then rejects an empty
  recipient or one equal to the sender, and then makes exactly one send
  attempt, turning an exception into a failure status. The model also covers
  the message text and the location link.
- **Request handlers** (`workflow.dfy`, module `Workflow`). Each of
  `camera_search`, `search_person` and `upload_person` is a function from the
  request and its collaborators to the response plus the ordered list of side
  effects: uploads saved and removed, registry read, person inserted, sighting
  image saved, sighting logged, alert called. The camera payload is the text
  after the first `base64,` marker, up to the first newline.
- **Re-embedding pass** (`rebuild.dfy`, module `Rebuild`). This is
  `rebuild_encodings` in encode_dataset.py. It is a class holding the persons
  table, and it updates one row's encoding per snapshot entry in place.
- **Shared pieces**. `records.dfy` holds the person row and the face-scan
  oracle, with `get_face_encoding` and `get_all_face_encodings`.
  `text.dfy` holds Python's `str()` of a non-negative integer and line
  splitting.

Face detection, the face-distance function, image decoding, file existence,
the SMS transport, the database's next sighting id and the clock are
parameters of the model.

Behaviour of the code worth noting:

- The score truncates; it does not round. `Score(0.05) == 91`, where rounding
  would give 92.
- The score is non-increasing in the distance, but not strictly decreasing,
  because of the clamp at 1 (`ScoreNotStrictlyMonotone`).
- The file search renders the same not-found page for "no face" and for "no
  matching person". Only the camera search tells the two apart.
- A payload that cannot be decoded in the camera search is not caught. It
  becomes a server error (`ServerError`, HTTP 500).
- At registration, an unreadable image and an image without a face are the
  same outcome: `get_face_encoding` returns `None` for both.

## Model

| member | source | states |
|---|---|---|
| Records.GetFaceEncoding | encode_dataset.py:9-21 | returns a value exactly when the scan found at least one face, and that value is the first face's encoding; a raising load gives None, never an exception |
| Records.GetAllFaceEncodings | app.py:45-52 | every detected face's encoding in order, or the empty list when loading raised |
| Records.FirstFaceIsHeadOfAll | app.py:36-52 | the first-face and all-faces extractors agree: a first face exists iff the list is non-empty, and it is the list's head |
| Text.DecimalString | app.py:217 | `str(n)` for n >= 0 is a non-empty run of digits without a leading zero |
| Text.ParseDecimalString | app.py:217 | reading `str(n)` back as a decimal number gives n |
| Matcher.BestMatch | app.py:150-163 | no match iff no (probe, person) pair is within tolerance; otherwise the result is within tolerance, has the minimum distance over all pairs of all probes, and is strictly smaller than every earlier pair in scan order |
| Matcher.FindBestMatch | app.py:151-163 | the nested loop computes exactly BestMatch; its winner is a person with a non-empty encoding and a distance below 0.6 |
| Matcher.BestMatchUnique | app.py:161 | the specification admits only one winner, so ties go to the first pair in scan order |
| Matcher.TwoProbesPickSmaller | app.py:154-163 | two probe encodings at distances 0.5 and 0.2 from the same person select the 0.2 pair |
| Matcher.AtToleranceNoMatch | app.py:161 | a distance equal to 0.6 is never a match |
| Matcher.Score | app.py:166 | the score is at least 1, at most 100 for a non-negative distance, exactly 100 at distance 0, and 1 at or beyond the tolerance |
| Matcher.ScoreMonotone | app.py:166 | a larger distance never gives a larger score |
| Matcher.ScoreAtHalfTolerance | app.py:166 | distance 0.3 scores 50 |
| Matcher.ScoreTruncates | app.py:166 | the score truncates: distance 0.05 scores 91 |
| Matcher.ScoreNotStrictlyMonotone | app.py:166 | distances 0.595 and 0.599 both score 1 |
| Alert.LocationIsLinkIffKnown | app.py:60-63 | the location text is a maps link iff latitude and longitude are both truthy, and "Location unavailable" otherwise |
| Alert.AlertBodyLines | app.py:73-78 | the message splits into the header, the name line, the confidence line and the location line |
| Alert.SendAlertSms | app.py:54-90 | at most one send; skipped-not-configured iff no client; skipped-invalid-recipient iff configured and the phone is empty or equals the sender; otherwise one message to the person's phone from the sender with the alert body, and Sent or Failed(reason) according to the transport |
| Alert.NotConfiguredIgnoresPhone | app.py:55-57 | without a client the result does not depend on the phone number, which is never examined |
| Alert.StatusTextInjective | app.py:57-90 | the four status texts are pairwise different, and a failure's text determines its reason |
| Workflow.FindMarker | app.py:182 | finds the leftmost `base64,` at or after a position, or reports that there is none |
| Workflow.LineEnd | app.py:182 | `.*` stops at the first newline or at the end of the text |
| Workflow.ExtractPayload | app.py:182-186 | no payload iff the text has no `base64,`; otherwise the payload follows the first marker, holds no newline and runs to a newline or the end |
| Workflow.PayloadUnique | app.py:182-186 | at most one payload fits that description |
| Workflow.ScoreTextReadsBack | app.py:216-217 | the score text is digits followed by `%`, and the digits read back as a number in [1, 100] |
| Workflow.CameraProbe | app.py:182-197 | the probe stops at "no marker" exactly when the data URL has no `base64,` |
| Workflow.CameraSearch | app.py:174-243 | the response is error, server error, no_face, no_match or match_found, each in exactly its case and checked in that order; the HTTP status is 400 iff the data URL has no `base64,` and 500 iff the payload cannot be decoded |
| Workflow.CameraEffects | app.py:188-241 | the registry is read iff the capture has a face; a match has six effects: the fifth logs a sighting for the matched person, the sixth calls the alert, and none of the first four does either; no other outcome logs a sighting or calls the alert |
| Workflow.CameraMatchIsBest | app.py:215-241 | match_found reports the best pair's person, its score text and the new sighting's URL; the sighting image is saved as `sighting_<id>_<time>.jpg` in the sightings folder, the logged sighting names that person, that same file and the request's coordinates, and the alert is sent for that person with that score |
| Workflow.CameraScoreInRange | app.py:215-217 | for a face-distance function that is never negative, the score shown by match_found is digits followed by `%` and reads back as a number in [1, 100] |
| Workflow.SightingUrlInjective | app.py:233 | different sighting ids give different result-page URLs |
| Workflow.CameraResponseIgnoresTransport | app.py:229-241 | the response is the same whatever the SMS transport does, so a failing send still returns match_found |
| Workflow.CameraCaptureRemoved | app.py:188-195 | the capture saved for face detection is removed again |
| Workflow.FileSearch | app.py:137-169 | a secured file name that is empty makes the save raise, giving HTTP 500 with no effect; otherwise the probe upload is saved and then removed before anything else, the found page is shown iff the probe has a face and some pair is within tolerance, with the best pair's person and score, and the registry is read iff the probe has a face |
| Workflow.FileScoreInRange | app.py:165-167 | for a face-distance function that is never negative, the score on the found page is digits followed by `%` and reads back as a number in [1, 100] |
| Workflow.Register | app.py:98-126 | no image redirects back to the form; an empty secured file name makes the save raise, giving HTTP 500 with no effect; a person is inserted iff the photo has a face, and the row holds the form's name, age, gender, height, weight, phone and coordinates, the secured file name and the first face's encoding; with no face the saved upload is removed and nothing is inserted |
| Rebuild.RefreshedEncoding | encode_dataset.py:36-55 | no filename or a missing file keeps the stored encoding; a non-empty first face replaces it; no face or a failed scan clears it |
| Rebuild.Refresh | encode_dataset.py:48-52 | only the encoding column of a row can change |
| Rebuild.Rebuilt | encode_dataset.py:36-57 | the rebuilt table has the same ids, and each row is that row refreshed |
| Rebuild.RebuildIdempotent | encode_dataset.py:36-57 | with fixed oracles, rebuilding twice gives the same table as rebuilding once |
| Rebuild.PersonsTable.SetEncoding | encode_dataset.py:48-52 | the update by id changes only that row's encoding, and an unknown id changes nothing |
| Rebuild.PersonsTable.RefreshRow | encode_dataset.py:37-55 | one iteration leaves the table with exactly that row refreshed and every other row as it was |
| Rebuild.PersonsTable.RebuildEncodings | encode_dataset.py:36-57 | the in-place loop over the snapshot leaves exactly the rebuilt table |

## Left out

- Face detection, face encoding and `face_distance` are foreign floating-point library calls. They are oracles: a face scan, and a real-valued distance function applied as `dist(known, probe)`.
- Floating point: distances and the score are computed on exact reals, so rounding error, NaN and infinity are not modelled.
- Matcher.Score, Workflow.ScoreTextReadsBack: the distance oracle's type admits negative values, which `face_distance` (a norm) never returns. The score bounds and the [1, 100] range of a reported score (Workflow.CameraScoreInRange, Workflow.FileScoreInRange) are stated for non-negative distances only.
- Flask routing and rendering are not modelled: `index`, `view_all`, `update_location`, `sighting_result` and the GET branches that only render a form. A missing form field, which Flask answers with 400, is not modelled either.
- Workflow.Register, Workflow.FileSearch: the upload's file name passes through `secure_filename`, which is an opaque parameter here. The one save failure modelled is an empty secured name, where `image.save` is given the upload folder itself and raises (HTTP 500). Any other failure of `image.save` (disk full, permissions) is not modelled; such a save is assumed to succeed. The `.strip()` of the registration form fields is not modelled; the form values are taken as already stripped.
- Workflow.CameraSearch: base64 decoding, PIL thumbnailing and JPEG re-encoding are one oracle, which either raises (uncaught, HTTP 500) or yields the capture's face scan. The second decoding at app.py:223 is assumed to succeed, since the first one did.
- Workflow.CameraSearch: the `time` module is imported only when app.py runs as a script. The current time and the database's next sighting id are parameters. The sighting's timestamp is set by the database and is not modelled.
- database.py is not modelled: SQL, JSON serialisation of encodings and `lastrowid`. Its schema gives the shape of the person row. The descriptive columns (age, gender, height, weight, coordinates) are kept as uninterpreted text.
- The SMS client's initialisation and transport are replaced by a configured flag, the sender number and a send oracle. Logging and `print` output are not modelled.
- Rebuild.PersonsTable.RebuildEncodings: the file-existence and face-scan oracles are keyed by the stored image filename, with the upload-folder join folded into them. The single commit and close at the end are not modelled, so a crash halfway through, which would roll back every update, is not captured.
- camera.js (browser code) is not part of this model.
- Concurrency between requests is not modelled; for example, two captures without a session id share the path `capture_None.jpg`.
