/** Rows of the persons table and the face-detection oracle.

    A person row carries the columns of the `persons` table; the descriptive
    attributes that no core operation reads are kept as the text the form
    supplied. `encoding` is the decoded `encoding_json` column: absent when the
    column is NULL, possibly an empty vector when it holds `[]`. */
module Records {

  datatype Option<T> = None | Some(value: T)

  /** A face embedding (128 floats in the face-recognition library). */
  type Encoding = seq<real>

  datatype Details = Details(
    age: Option<string>,
    gender: Option<string>,
    height: Option<string>,
    weight: Option<string>,
    latitude: Option<string>,
    longitude: Option<string>)

  datatype Person = Person(
    id: nat,
    name: string,
    details: Details,
    phone: Option<string>,
    imageFilename: string,
    encoding: Option<Encoding>)

  /** Python truthiness of an optional text value: present and non-empty. */
  predicate Truthy(s: Option<string>) {
    s.Some? && s.value != ""
  }

  /** Python's f-string rendering of an optional text value. */
  function PyText(s: Option<string>): (r: string)
    ensures s.Some? ==> r == s.value
  {
    if s.Some? then s.value else "None"
  }

  /** What loading an image and running the face encoder produces: either
      an exception, or one encoding per detected face, in detection order. */
  datatype FaceScan = ScanRaised | Faces(encodings: seq<Encoding>)

  /** `get_face_encoding`: the first face's encoding, or None when the image
      has no face or loading it raised. It never raises. */
  function GetFaceEncoding(scan: FaceScan): (r: Option<Encoding>)
    ensures r.Some? <==> scan.Faces? && |scan.encodings| > 0
    ensures r.Some? ==> r.value == scan.encodings[0]
  {
    match scan
    case ScanRaised => None
    case Faces(encs) => if |encs| > 0 then Some(encs[0]) else None
  }

  /** `get_all_face_encodings`: every face's encoding, or the empty list when
      loading the image raised. It never raises. */
  function GetAllFaceEncodings(scan: FaceScan): (r: seq<Encoding>)
    ensures scan.Faces? ==> r == scan.encodings
    ensures scan.ScanRaised? ==> r == []
  {
    match scan
    case ScanRaised => []
    case Faces(encs) => encs
  }

  /** The two extraction paths agree: a first face exists exactly when the
      list of all faces is non-empty, and it is that list's head. */
  lemma FirstFaceIsHeadOfAll(scan: FaceScan)
    ensures GetFaceEncoding(scan).Some? <==> GetAllFaceEncodings(scan) != []
    ensures GetFaceEncoding(scan).Some? ==> GetFaceEncoding(scan).value == GetAllFaceEncodings(scan)[0]
  {
  }
}
