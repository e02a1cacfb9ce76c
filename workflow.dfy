/** The request handlers of app.py that decide something: registration
    (`upload_person`), the file search (`search_person`) and the camera search
    (`camera_search`).

    Every handler is a function from its request and its collaborators to a
    response and the ordered list of side effects it performs. File contents,
    image decoding and face detection are oracles; the registry is the
    snapshot `get_all_persons` returns. */
module Workflow {
  import opened Records
  import opened Text
  import opened Matcher
  import opened Alert

  const UploadFolder: string := "static/uploads/"
  const SightingsFolder: string := "static/sightings/"

  datatype SightingRow = SightingRow(personId: nat, imageFilename: string, latitude: Option<string>, longitude: Option<string>)

  datatype NewPerson = NewPerson(name: string, details: Details, phone: Option<string>, imageFilename: string, encoding: Encoding)

  datatype Effect =
    | SaveUpload(path: string)
    | RemoveUpload(path: string)
    | ReadRegistry
    | InsertPerson(person: NewPerson)
    | SaveSightingImage(path: string)
    | LogSighting(sighting: SightingRow)
    | CallAlert(result: AlertResult)

  // ---------------------------------------------------------------------
  // The data-URL payload: `re.search(r'base64,(.*)', data_url).group(1)`

  const Marker: string := "base64,"

  predicate MarkerAt(s: string, i: nat) {
    i + |Marker| <= |s| && s[i..i + |Marker|] == Marker
  }

  ghost predicate HasMarker(s: string) {
    exists i: nat :: MarkerAt(s, i)
  }

  /** The leftmost occurrence of the marker at or after `from`. */
  function FindMarker(s: string, from: nat): (r: Option<nat>)
    requires from <= |s|
    ensures r.None? ==> forall i: nat :: from <= i ==> !MarkerAt(s, i)
    ensures r.Some? ==> from <= r.value && MarkerAt(s, r.value)
    ensures r.Some? ==> forall i: nat :: from <= i < r.value ==> !MarkerAt(s, i)
    decreases |s| - from
  {
    if from + |Marker| > |s| then None
    else if s[from..from + |Marker|] == Marker then Some(from)
    else FindMarker(s, from + 1)
  }

  /** Where `.*` stops: the first newline at or after `from`, or the end. */
  function LineEnd(s: string, from: nat): (r: nat)
    requires from <= |s|
    ensures from <= r <= |s|
    ensures forall i :: from <= i < r ==> s[i] != '\n'
    ensures r < |s| ==> s[r] == '\n'
    decreases |s| - from
  {
    if from == |s| || s[from] == '\n' then from else LineEnd(s, from + 1)
  }

  /** `p` is what the regular expression captures when it matches at `i`:
      the first marker, followed by the longest newline-free run. */
  ghost predicate PayloadAt(s: string, i: nat, p: string) {
    && MarkerAt(s, i)
    && (forall j: nat :: j < i ==> !MarkerAt(s, j))
    && i + |Marker| + |p| <= |s|
    && s[i + |Marker|..i + |Marker| + |p|] == p
    && '\n' !in p
    && (i + |Marker| + |p| == |s| || s[i + |Marker| + |p|] == '\n')
  }

  function ExtractPayload(s: string): (r: Option<string>)
    ensures r.None? <==> !HasMarker(s)
    ensures r.Some? ==> exists i: nat :: PayloadAt(s, i, r.value)
  {
    match FindMarker(s, 0)
    case None => None
    case Some(i) =>
      var end := LineEnd(s, i + |Marker|);
      var p := s[i + |Marker|..end];
      assert '\n' !in p by {
        forall k | 0 <= k < |p| ensures p[k] != '\n' {
          assert p[k] == s[i + |Marker| + k];
        }
      }
      assert PayloadAt(s, i, p);
      Some(p)
  }

  /** The capture is determined: only one payload fits the description. */
  lemma PayloadUnique(s: string, i: nat, p: string, j: nat, q: string)
    requires PayloadAt(s, i, p) && PayloadAt(s, j, q)
    ensures i == j && p == q
  {
  }

  // ---------------------------------------------------------------------
  // Score text and responses

  /** `f"{match_score}%"`. */
  function ScoreText(d: real): string {
    DecimalString(Score(d)) + "%"
  }

  /** The displayed text reads back as the score, which lies in [1, 100]
      for any distance the face-distance function can return. */
  lemma ScoreTextReadsBack(d: real)
    requires 0.0 <= d
    ensures var t := ScoreText(d);
            && |t| >= 2 && t[|t| - 1] == '%' && AllDigits(t[..|t| - 1])
            && 1 <= ParseDecimal(t[..|t| - 1]) <= 100
  {
    var t := ScoreText(d);
    assert t[..|t| - 1] == DecimalString(Score(d));
    ParseDecimalString(Score(d));
  }

  function SightingUrl(sightingId: nat): string {
    "/sighting_result/" + DecimalString(sightingId)
  }

  /** Different sightings redirect to different result pages. */
  lemma SightingUrlInjective(a: nat, b: nat)
    requires SightingUrl(a) == SightingUrl(b)
    ensures a == b
  {
    var prefix := "/sighting_result/";
    assert DecimalString(a) == SightingUrl(a)[|prefix|..];
    assert DecimalString(b) == SightingUrl(b)[|prefix|..];
    DecimalStringInjective(a, b);
  }

  // ---------------------------------------------------------------------
  // camera_search

  datatype CameraRequest = CameraRequest(
    imageData: string,
    latitude: Option<string>,
    longitude: Option<string>,
    sessionId: Option<string>)

  /** Decoding the payload (base64 and the image library) either raises, which
      the handler does not catch, or yields the thumbnail's face scan. */
  datatype ImageDecode = Undecodable | Decoded(scan: FaceScan)

  datatype CameraEnv = CameraEnv(
    decode: string -> ImageDecode,
    registry: seq<Person>,
    dist: Distance,
    alert: AlertConfig,
    send: Message -> Delivery,
    nextSightingId: nat,
    now: nat)

  datatype CameraResponse =
    | BadRequest
    | ServerError
    | NoFace
    | NoMatch
    | MatchFound(name: string, matchScore: string, personId: nat, redirectUrl: string)

  datatype CameraResult = CameraResult(response: CameraResponse, effects: seq<Effect>)

  function HttpStatus(r: CameraResponse): nat {
    match r
    case BadRequest => 400
    case ServerError => 500
    case _ => 200
  }

  /** How far the probe gets before matching: no marker, an undecodable
      payload, or the list of face encodings found in the capture. */
  datatype Probe = NoMarker | DecodeFailed | Probed(encodings: seq<Encoding>)

  function CameraProbe(imageData: string, decode: string -> ImageDecode): (st: Probe)
    ensures st.NoMarker? <==> !HasMarker(imageData)
  {
    match ExtractPayload(imageData)
    case None => NoMarker
    case Some(payload) =>
      match decode(payload)
      case Undecodable => DecodeFailed
      case Decoded(scan) => Probed(GetAllFaceEncodings(scan))
  }

  function CapturePath(sessionId: Option<string>): string {
    UploadFolder + "capture_" + PyText(sessionId) + ".jpg"
  }

  function SightingFilename(personId: nat, now: nat): string {
    "sighting_" + DecimalString(personId) + "_" + DecimalString(now) + ".jpg"
  }

  /** The effects of a match: save the sighting image, log exactly one
      sighting, then make exactly one alert call. */
  function MatchEffects(req: CameraRequest, env: CameraEnv, person: Person, scoreText: string): seq<Effect> {
    var file := SightingFilename(person.id, env.now);
    [ ReadRegistry,
      SaveSightingImage(SightingsFolder + file),
      LogSighting(SightingRow(person.id, file, req.latitude, req.longitude)),
      CallAlert(SendAlertSms(env.alert, person, scoreText, req.latitude, req.longitude, env.send)) ]
  }

  predicate Matching(st: Probe) {
    st.Probed? && st.encodings != []
  }

  predicate NoSightingOrAlert(effects: seq<Effect>) {
    forall k :: 0 <= k < |effects| ==> !effects[k].LogSighting? && !effects[k].CallAlert?
  }

  /** The matching stage, reached once the capture has a face: read the
      registry, then either report no match, or log one sighting and make one
      alert call. */
  function MatchStage(req: CameraRequest, env: CameraEnv, encodings: seq<Encoding>): (r: CameraResult)
    ensures r.response == NoMatch <==> !AnyWithinTolerance(encodings, env.registry, env.dist)
    ensures r.response.MatchFound? <==> AnyWithinTolerance(encodings, env.registry, env.dist)
    ensures |r.effects| >= 1 && r.effects[0] == ReadRegistry
    ensures r.response.MatchFound? ==>
              && |r.effects| == 4
              && !r.effects[1].LogSighting? && !r.effects[1].CallAlert?
              && r.effects[2].LogSighting? && r.effects[2].sighting.personId == r.response.personId
              && r.effects[3].CallAlert?
    ensures !r.response.MatchFound? ==> r.effects == [ReadRegistry]
  {
    match BestMatch(encodings, env.registry, env.dist)
    case None => CameraResult(NoMatch, [ReadRegistry])
    case Some(h) =>
      var person := env.registry[h.person];
      var scoreText := ScoreText(h.distance);
      CameraResult(MatchFound(person.name, scoreText, person.id, SightingUrl(env.nextSightingId)),
                   MatchEffects(req, env, person, scoreText))
  }

  function CameraSearch(req: CameraRequest, env: CameraEnv): (r: CameraResult)
    ensures var st := CameraProbe(req.imageData, env.decode);
            && (r.response == BadRequest <==> !HasMarker(req.imageData))
            && (r.response == ServerError <==> st.DecodeFailed?)
            && (r.response == NoFace <==> st.Probed? && st.encodings == [])
            && (r.response == NoMatch <==> Matching(st) && !AnyWithinTolerance(st.encodings, env.registry, env.dist))
            && (r.response.MatchFound? <==> Matching(st) && AnyWithinTolerance(st.encodings, env.registry, env.dist))
    ensures HttpStatus(r.response) == 400 <==> !HasMarker(req.imageData)
    ensures HttpStatus(r.response) == 500 <==> CameraProbe(req.imageData, env.decode).DecodeFailed?
  {
    match CameraProbe(req.imageData, env.decode)
    case NoMarker => CameraResult(BadRequest, [])
    case DecodeFailed => CameraResult(ServerError, [])
    case Probed(encodings) =>
      var io := [SaveUpload(CapturePath(req.sessionId)), RemoveUpload(CapturePath(req.sessionId))];
      if encodings == [] then CameraResult(NoFace, io)
      else
        var stage := MatchStage(req, env, encodings);
        CameraResult(stage.response, io + stage.effects)
  }

  /** The registry is read only once the capture has a face. A match logs
      exactly one sighting and then makes exactly one alert call; no other
      outcome does either. */
  lemma CameraEffects(req: CameraRequest, env: CameraEnv)
    ensures var r := CameraSearch(req, env);
            ReadRegistry in r.effects <==> Matching(CameraProbe(req.imageData, env.decode))
    ensures var r := CameraSearch(req, env);
            r.response.MatchFound? ==>
              && |r.effects| == 6
              && r.effects[4].LogSighting? && r.effects[4].sighting.personId == r.response.personId
              && r.effects[5].CallAlert?
              && NoSightingOrAlert(r.effects[..4])
    ensures var r := CameraSearch(req, env);
            !r.response.MatchFound? ==> NoSightingOrAlert(r.effects)
  {
    var r := CameraSearch(req, env);
    var st := CameraProbe(req.imageData, env.decode);
    var io := [SaveUpload(CapturePath(req.sessionId)), RemoveUpload(CapturePath(req.sessionId))];
    if Matching(st) {
      var e := MatchStage(req, env, st.encodings).effects;
      if r.response.MatchFound? {
        assert r.effects == [io[0], io[1], e[0], e[1], e[2], e[3]];
      } else {
        assert r.effects == [io[0], io[1], ReadRegistry];
      }
    } else {
      assert r.effects == [] || r.effects == [io[0], io[1]];
    }
  }

  /** A match reports the best pair of the whole scan, with its score, and the
      alert is attempted for that person with that score. */
  lemma CameraMatchIsBest(req: CameraRequest, env: CameraEnv)
    requires CameraSearch(req, env).response.MatchFound?
    ensures var st := CameraProbe(req.imageData, env.decode);
            var r := CameraSearch(req, env);
            exists h :: IsBestMatch(st.encodings, env.registry, env.dist, h)
              && r.response == MatchFound(env.registry[h.person].name, ScoreText(h.distance),
                                          env.registry[h.person].id, SightingUrl(env.nextSightingId))
              && r.effects[3] == SaveSightingImage(SightingsFolder + SightingFilename(env.registry[h.person].id, env.now))
              && r.effects[4] == LogSighting(SightingRow(env.registry[h.person].id,
                                                         SightingFilename(env.registry[h.person].id, env.now),
                                                         req.latitude, req.longitude))
              && r.effects[5] == CallAlert(SendAlertSms(env.alert, env.registry[h.person], ScoreText(h.distance),
                                                        req.latitude, req.longitude, env.send))
  {
  }

  /** With a face-distance function that never goes negative, as a norm does,
      a reported match shows a score of digits and `%` between 1 and 100. */
  lemma CameraScoreInRange(req: CameraRequest, env: CameraEnv)
    requires forall a, b :: 0.0 <= env.dist(a, b)
    requires CameraSearch(req, env).response.MatchFound?
    ensures var t := CameraSearch(req, env).response.matchScore;
            && |t| >= 2 && t[|t| - 1] == '%' && AllDigits(t[..|t| - 1])
            && 1 <= ParseDecimal(t[..|t| - 1]) <= 100
  {
    CameraMatchIsBest(req, env);
    var st := CameraProbe(req.imageData, env.decode);
    var h :| IsBestMatch(st.encodings, env.registry, env.dist, h)
             && CameraSearch(req, env).response.matchScore == ScoreText(h.distance);
    ScoreTextReadsBack(h.distance);
  }

  /** The alert's fate never changes what the caller is told: a transport that
      raises still yields the same `match_found` response. */
  lemma CameraResponseIgnoresTransport(req: CameraRequest, env: CameraEnv, other: Message -> Delivery)
    ensures CameraSearch(req, env).response == CameraSearch(req, env.(send := other)).response
  {
  }

  /** The capture saved for face detection is always removed again. */
  lemma CameraCaptureRemoved(req: CameraRequest, env: CameraEnv, path: string)
    requires SaveUpload(path) in CameraSearch(req, env).effects
    ensures RemoveUpload(path) in CameraSearch(req, env).effects
  {
  }

  // ---------------------------------------------------------------------
  // search_person

  /** `SearchServerError` is the HTTP 500 Flask sends when `image.save`
      raises: a file name that `secure_filename` reduces to the empty string
      leaves the upload folder itself as the save path. */
  datatype SearchPage = NotFoundPage | FoundPage(person: Person, matchScore: string) | SearchServerError

  datatype SearchResult = SearchResult(page: SearchPage, effects: seq<Effect>)

  /** The file search. Unlike the camera search it renders the same
      not-found page for "no face in the photo" and "no matching person". */
  function FileSearch(filename: string, secure: string -> string, scanOf: string -> FaceScan,
                      registry: seq<Person>, dist: Distance): (r: SearchResult)
    ensures r.page == SearchServerError <==> secure(filename) == ""
    ensures r.page == SearchServerError ==> r.effects == []
    ensures secure(filename) != "" ==>
            var path := UploadFolder + secure(filename);
            var encodings := GetAllFaceEncodings(scanOf(path));
            && |r.effects| >= 2 && r.effects[..2] == [SaveUpload(path), RemoveUpload(path)]
            && (r.page.FoundPage? <==> encodings != [] && AnyWithinTolerance(encodings, registry, dist))
            && (ReadRegistry in r.effects <==> encodings != [])
            && (r.page.FoundPage? ==>
                  exists h :: IsBestMatch(encodings, registry, dist, h)
                    && r.page == FoundPage(registry[h.person], ScoreText(h.distance)))
  {
    if secure(filename) == "" then SearchResult(SearchServerError, [])
    else
      var path := UploadFolder + secure(filename);
      var encodings := GetAllFaceEncodings(scanOf(path));
      var io := [SaveUpload(path), RemoveUpload(path)];
      if encodings == [] then SearchResult(NotFoundPage, io)
      else
        match BestMatch(encodings, registry, dist)
        case None => SearchResult(NotFoundPage, io + [ReadRegistry])
        case Some(h) =>
          assert IsBestMatch(encodings, registry, dist, h);
          SearchResult(FoundPage(registry[h.person], ScoreText(h.distance)), io + [ReadRegistry])
  }

  /** The found page's score, like the camera search's, lies in [1, 100]
      whenever distances are non-negative. */
  lemma FileScoreInRange(filename: string, secure: string -> string, scanOf: string -> FaceScan,
                         registry: seq<Person>, dist: Distance)
    requires forall a, b :: 0.0 <= dist(a, b)
    requires FileSearch(filename, secure, scanOf, registry, dist).page.FoundPage?
    ensures var t := FileSearch(filename, secure, scanOf, registry, dist).page.matchScore;
            && |t| >= 2 && t[|t| - 1] == '%' && AllDigits(t[..|t| - 1])
            && 1 <= ParseDecimal(t[..|t| - 1]) <= 100
  {
    var encodings := GetAllFaceEncodings(scanOf(UploadFolder + secure(filename)));
    var h :| IsBestMatch(encodings, registry, dist, h)
             && FileSearch(filename, secure, scanOf, registry, dist).page == FoundPage(registry[h.person], ScoreText(h.distance));
    ScoreTextReadsBack(h.distance);
  }

  // ---------------------------------------------------------------------
  // upload_person

  datatype RegisterForm = RegisterForm(
    name: string,
    age: string,
    gender: string,
    height: string,
    weight: string,
    phone: string,
    latitude: Option<string>,
    longitude: Option<string>,
    image: Option<string>)

  /** `RegisterServerError` is the HTTP 500 of an `image.save` that raises
      because the secured file name is empty. */
  datatype RegisterPage = RedirectToForm | NoFacePage | RedirectToList | RegisterServerError

  datatype RegisterResult = RegisterResult(page: RegisterPage, effects: seq<Effect>)

  predicate Inserts(effects: seq<Effect>) {
    exists k :: 0 <= k < |effects| && effects[k].InsertPerson?
  }

  /** Registration stores a person only when the reference photo has a face,
      with the form's fields, the secured file name and that face's encoding;
      otherwise the saved upload is removed. */
  function Register(form: RegisterForm, secure: string -> string, scanOf: string -> FaceScan): (r: RegisterResult)
    ensures r.page == RedirectToForm <==> !Truthy(form.image)
    ensures r.page == RegisterServerError <==> Truthy(form.image) && secure(form.image.value) == ""
    ensures r.page == RegisterServerError ==> r.effects == []
    ensures Inserts(r.effects) <==> r.page == RedirectToList
    ensures Truthy(form.image) && secure(form.image.value) != "" ==>
              var filename := secure(form.image.value);
              var path := UploadFolder + filename;
              && (r.page == NoFacePage <==> GetFaceEncoding(scanOf(path)).None?)
              && (r.page == NoFacePage ==> r.effects == [SaveUpload(path), RemoveUpload(path)])
              && (r.page == RedirectToList ==>
                    && |r.effects| == 2 && r.effects[0] == SaveUpload(path)
                    && r.effects[1] == InsertPerson(NewPerson(
                         form.name,
                         Details(Some(form.age), Some(form.gender), Some(form.height), Some(form.weight),
                                 form.latitude, form.longitude),
                         Some(form.phone), filename, GetFaceEncoding(scanOf(path)).value)))
  {
    if !Truthy(form.image) then RegisterResult(RedirectToForm, [])
    else
      var filename := secure(form.image.value);
      if filename == "" then RegisterResult(RegisterServerError, [])
      else
        var path := UploadFolder + filename;
        match GetFaceEncoding(scanOf(path))
        case None => RegisterResult(NoFacePage, [SaveUpload(path), RemoveUpload(path)])
        case Some(e) =>
          var details := Details(Some(form.age), Some(form.gender), Some(form.height), Some(form.weight),
                                 form.latitude, form.longitude);
          var row := NewPerson(form.name, details, Some(form.phone), filename, e);
          assert [SaveUpload(path), InsertPerson(row)][1].InsertPerson?;
          RegisterResult(RedirectToList, [SaveUpload(path), InsertPerson(row)])
  }
}
