/** The per-user record `user_scores` hands back to the search loop.

    The catalog answers the per-user query with either JSON null (the user has
    no list entry for this media) or an entry object. The record is a map from
    field name to the field's JSON text: only `status = "null"` for a missing
    entry, five fields for a present one. A present entry's status is the JSON
    text of the status, so a string status keeps its double quotes. */
module Records {
  import opened Options
  import opened Json

  /** The five list-entry fields the per-user query selects. */
  datatype ListEntry = ListEntry(
    progress: Value,
    status: Value,
    score: Value,
    progressVolumes: Value,
    repeat: Value)

  type Record = map<string, string>

  const EntryKeys: set<string> := {"progress", "status", "score", "progressVolumes", "repeat"}

  /** The record for one user. Every record has a status; a present entry's
      record has exactly the five entry fields, each the JSON text of the
      corresponding value, and a missing entry's record has the status only,
      holding the text `null`. */
  function UserRecord(entry: Option<ListEntry>): (rec: Record)
    ensures entry.None? ==> rec == map["status" := "null"]
    ensures entry.Some? ==> rec.Keys == EntryKeys
    ensures entry.Some? ==>
              && rec["progress"] == Render(entry.value.progress)
              && rec["status"] == Render(entry.value.status)
              && rec["score"] == Render(entry.value.score)
              && rec["progressVolumes"] == Render(entry.value.progressVolumes)
              && rec["repeat"] == Render(entry.value.repeat)
  {
    match entry
    case None => map["status" := "null"]
    case Some(e) =>
      map["progress" := Render(e.progress),
          "status" := Render(e.status),
          "score" := Render(e.score),
          "progressVolumes" := Render(e.progressVolumes),
          "repeat" := Render(e.repeat)]
  }

  /** The record's shape tells a missing entry from a present one: the status
      alone is not enough, since a present entry whose status is JSON null
      also stores the text `null`. */
  lemma {:induction false} RecordShape(entry: Option<ListEntry>)
    ensures UserRecord(entry).Keys == {"status"} <==> entry.None?
    ensures "repeat" in UserRecord(entry) <==> entry.Some?
    ensures (UserRecord(entry)["status"] == "null")
        <==> (entry.None? || entry.value.status == Null)
  {
    if entry.Some? {
      assert "repeat" in UserRecord(entry);
      RenderIsNull(entry.value.status);
    }
  }

  /** The stored repeat count is the text "0" exactly when the entry's repeat
      value is the integer zero. */
  lemma {:induction false} RepeatIsZero(e: ListEntry)
    ensures UserRecord(Some(e))["repeat"] == "0" <==> e.repeat == Int(0)
  {
    RenderIsZero(e.repeat);
  }
}
