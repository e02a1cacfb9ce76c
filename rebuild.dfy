/** The offline re-embedding pass (`rebuild_encodings` in encode_dataset.py).

    The persons table is a map from id to row that the pass updates in place,
    one `UPDATE persons SET encoding_json = ... WHERE id = ?` per row. Whether
    a person's image file exists and what the face encoder finds in it are
    oracles keyed by the stored image filename (the upload folder is a fixed
    prefix and is folded into them). */
module Rebuild {
  import opened Records

  type Rows = map<nat, Person>

  /** The snapshot `get_all_persons` returns: every row exactly once. */
  ghost predicate IsListing(snapshot: seq<Person>, rows: Rows) {
    && (forall i :: 0 <= i < |snapshot| ==> snapshot[i].id in rows && rows[snapshot[i].id] == snapshot[i])
    && (forall id :: id in rows ==> exists i :: 0 <= i < |snapshot| && snapshot[i].id == id)
    && (forall i, j :: 0 <= i < j < |snapshot| ==> snapshot[i].id != snapshot[j].id)
  }

  /** The per-row rule: the encoding this pass leaves in a person's row. */
  function RefreshedEncoding(p: Person, fileExists: string -> bool, scanOf: string -> FaceScan): (e: Option<Encoding>)
    ensures p.imageFilename == "" ==> e == p.encoding
    ensures p.imageFilename != "" && !fileExists(p.imageFilename) ==> e == p.encoding
    ensures p.imageFilename != "" && fileExists(p.imageFilename) ==>
              var face := GetFaceEncoding(scanOf(p.imageFilename));
              if face.Some? && |face.value| > 0 then e == face else e.None?
  {
    if p.imageFilename == "" then p.encoding
    else if !fileExists(p.imageFilename) then p.encoding
    else
      var face := GetFaceEncoding(scanOf(p.imageFilename));
      if face.Some? && |face.value| > 0 then face else None
  }

  function Refresh(p: Person, fileExists: string -> bool, scanOf: string -> FaceScan): (r: Person)
    ensures r == p.(encoding := r.encoding)
  {
    p.(encoding := RefreshedEncoding(p, fileExists, scanOf))
  }

  /** The table the pass should leave behind: every row refreshed. */
  function Rebuilt(rows: Rows, fileExists: string -> bool, scanOf: string -> FaceScan): (r: Rows)
    ensures r.Keys == rows.Keys
    ensures forall id :: id in rows ==> r[id] == Refresh(rows[id], fileExists, scanOf)
  {
    map id | id in rows :: Refresh(rows[id], fileExists, scanOf)
  }

  /** With fixed oracles a second pass changes nothing. */
  lemma RebuildIdempotent(rows: Rows, fileExists: string -> bool, scanOf: string -> FaceScan)
    ensures Rebuilt(Rebuilt(rows, fileExists, scanOf), fileExists, scanOf) == Rebuilt(rows, fileExists, scanOf)
  {
  }

  /** The ids of the snapshot entries already handled. */
  ghost function IdsOf(s: seq<Person>): set<nat> {
    set k | 0 <= k < |s| :: s[k].id
  }

  lemma IdsOfExtend(s: seq<Person>, i: nat)
    requires i < |s|
    ensures IdsOf(s[..i + 1]) == IdsOf(s[..i]) + {s[i].id}
  {
    assert s[..i + 1] == s[..i] + [s[i]];
  }

  /** A listing never repeats an id, so the next entry is not handled yet. */
  lemma NextIdFresh(snapshot: seq<Person>, rows: Rows, i: nat)
    requires IsListing(snapshot, rows) && i < |snapshot|
    ensures snapshot[i].id !in IdsOf(snapshot[..i])
  {
  }

  /** Once the whole listing is handled, every row is. */
  lemma ListingCoversRows(snapshot: seq<Person>, rows: Rows)
    requires IsListing(snapshot, rows)
    ensures IdsOf(snapshot[..|snapshot|]) == rows.Keys
  {
    assert snapshot[..|snapshot|] == snapshot;
    forall id | id in rows
      ensures id in IdsOf(snapshot)
    {
      var k :| 0 <= k < |snapshot| && snapshot[k].id == id;
    }
  }

  /** The table part-way through the pass: the rows in `done` are refreshed,
      every other row is as it was. */
  ghost predicate RefreshedOn(start: Rows, rows: Rows, done: set<nat>, fileExists: string -> bool, scanOf: string -> FaceScan) {
    && rows.Keys == start.Keys
    && forall id :: id in rows ==>
         rows[id] == if id in done then Refresh(start[id], fileExists, scanOf) else start[id]
  }

  lemma RefreshOneMore(start: Rows, rows: Rows, done: set<nat>, id: nat, fileExists: string -> bool, scanOf: string -> FaceScan)
    requires RefreshedOn(start, rows, done, fileExists, scanOf)
    requires id in start && id !in done
    ensures RefreshedOn(start, rows[id := Refresh(start[id], fileExists, scanOf)], done + {id}, fileExists, scanOf)
  {
  }

  class PersonsTable {
    var rows: Rows

    constructor (initial: Rows)
      ensures rows == initial
    {
      rows := initial;
    }

    /** `UPDATE persons SET encoding_json = ? WHERE id = ?`: only that row's
        encoding changes, and an unknown id changes nothing. */
    method SetEncoding(id: nat, encoding: Option<Encoding>)
      modifies this
      ensures id in old(rows) ==> rows == old(rows)[id := old(rows)[id].(encoding := encoding)]
      ensures id !in old(rows) ==> rows == old(rows)
    {
      if id in rows {
        rows := rows[id := rows[id].(encoding := encoding)];
      }
    }

    /** One iteration of `rebuild_encodings`: rows with no file name or a
        missing file are skipped, every other row gets its new encoding. */
    method RefreshRow(p: Person, fileExists: string -> bool, scanOf: string -> FaceScan)
      requires p.id in rows && rows[p.id] == p
      modifies this
      ensures rows == old(rows)[p.id := Refresh(p, fileExists, scanOf)]
    {
      if p.imageFilename != "" {
        if fileExists(p.imageFilename) {
          var face := GetFaceEncoding(scanOf(p.imageFilename));
          if face.Some? && |face.value| > 0 {
            SetEncoding(p.id, face);
          } else {
            SetEncoding(p.id, None);
          }
        }
      }
    }

    /** The loop of `rebuild_encodings` over the snapshot. */
    method RebuildEncodings(snapshot: seq<Person>, fileExists: string -> bool, scanOf: string -> FaceScan)
      requires IsListing(snapshot, rows)
      modifies this
      ensures rows == Rebuilt(old(rows), fileExists, scanOf)
    {
      var i := 0;
      while i < |snapshot|
        invariant i <= |snapshot|
        invariant RefreshedOn(old(rows), rows, IdsOf(snapshot[..i]), fileExists, scanOf)
      {
        var p := snapshot[i];
        NextIdFresh(snapshot, old(rows), i);
        IdsOfExtend(snapshot, i);
        RefreshOneMore(old(rows), rows, IdsOf(snapshot[..i]), p.id, fileExists, scanOf);
        RefreshRow(p, fileExists, scanOf);
        i := i + 1;
      }
      ListingCoversRows(snapshot, old(rows));
    }
  }
}
