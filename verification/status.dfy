/** Classifying a record's status and formatting the member's line.

    The status text is matched against six quoted upper-case literals, one
    per category; anything else (the `null` of a missing entry, a status the
    code does not know) is skipped. A classified member's line shows the
    score, preceded by the progress for Repeating and Current, or by the
    repeat count for a Completed entry whose repeat text is not "0". */
module Status {
  import opened Options
  import opened Json
  import opened Records

  datatype Category = Repeating | Current | Completed | Planning | Paused | Dropped

  const AllCategories: set<Category> :=
    {Repeating, Current, Completed, Planning, Paused, Dropped}

  /** The order the category blocks are printed in. */
  const DisplayOrder: seq<Category> :=
    [Repeating, Current, Completed, Planning, Paused, Dropped]

  /** The catalog's name for the status. */
  function WireName(c: Category): string {
    match c
    case Repeating => "REPEATING"
    case Current => "CURRENT"
    case Completed => "COMPLETED"
    case Planning => "PLANNING"
    case Paused => "PAUSED"
    case Dropped => "DROPPED"
  }

  /** The bucket name, also printed as the block header. */
  function Label(c: Category): string {
    match c
    case Repeating => "Repeating"
    case Current => "Current"
    case Completed => "Completed"
    case Planning => "Planning"
    case Paused => "Paused"
    case Dropped => "Dropped"
  }

  /** A name between double quotes. */
  function Quoted(name: string): string {
    "\"" + name + "\""
  }

  /** The status text of a record, matched against the six quoted names.
      A recognised text is that category's catalog name between quotes. */
  function Classify(raw: string): (c: Option<Category>)
    ensures c.Some? ==> raw == Quoted(WireName(c.value))
  {
    if raw == "\"REPEATING\"" then Some(Repeating)
    else if raw == "\"CURRENT\"" then Some(Current)
    else if raw == "\"COMPLETED\"" then Some(Completed)
    else if raw == "\"PLANNING\"" then Some(Planning)
    else if raw == "\"PAUSED\"" then Some(Paused)
    else if raw == "\"DROPPED\"" then Some(Dropped)
    else None
  }

  /** Exactly the six quoted catalog names classify, each to its own
      category; the text `null` does not. */
  lemma {:induction false} ClassifyExact(raw: string, c: Category)
    ensures Classify(raw) == Some(c) <==> raw == Quoted(WireName(c))
    ensures Classify("null") == None
  {
    // Each quoted name differs from every name tested before it, so the
    // chain of comparisons in `Classify` reaches its own branch.
    if raw == Quoted(WireName(c)) {
      match c
      case Repeating =>
        // tested first
        assert raw == "\"REPEATING\"";
      case Current =>
        // 9 characters; "REPEATING" quoted has 11
        assert raw == "\"CURRENT\"" && |raw| != 11;
      case Completed =>
        // 11 characters like "REPEATING", but its second character is C, not R
        assert raw == "\"COMPLETED\"" && raw[1] != 'R';
      case Planning =>
        // 10 characters; the names tested before have 11 or 9
        assert raw == "\"PLANNING\"" && |raw| !in {11, 9};
      case Paused =>
        // 8 characters; the names tested before have 11, 9 or 10
        assert raw == "\"PAUSED\"" && |raw| !in {11, 9, 10};
      case Dropped =>
        // 9 characters like "CURRENT", which differs at the second
        // character; the other names tested before have 11, 10 or 8
        assert raw == "\"DROPPED\"" && |raw| !in {11, 10, 8};
    }
    assert |"null"| == 4;
  }

  /** A catalog name is printed by the JSON library as the name in quotes. */
  lemma {:induction false} WireNameRender(c: Category)
    ensures Render(Str(WireName(c))) == Quoted(WireName(c))
  {
    var name := WireName(c);
    assert forall i :: 0 <= i < |name| ==> 'A' <= name[i] <= 'Z';
    EscapePlain(name);
  }

  /** The JSON status value a catalog entry must carry to land in category
      `c`: the catalog name as a JSON string, and nothing else. */
  lemma {:induction false} ClassifyEntryStatus(e: ListEntry, c: Category)
    ensures Classify(UserRecord(Some(e))["status"]) == Some(c) <==> e.status == Str(WireName(c))
  {
    var raw := Render(e.status);
    assert UserRecord(Some(e))["status"] == raw;
    ClassifyExact(raw, c);
    WireNameRender(c);
    if raw == Quoted(WireName(c)) {
      RenderQuoted(e.status);
      RenderStrInjective(e.status.s, WireName(c));
    }
  }

  /** One user of the member list together with their list entry, if any. */
  datatype Member = Member(name: string, entry: Option<ListEntry>)

  /** The line of a classified member. */
  function FormatLine(name: string, c: Category, rec: Record): string
    requires EntryKeys <= rec.Keys
  {
    if c == Completed && rec["repeat"] != "0" then
      "**" + name + "** - `" + rec["repeat"] + " repeat(s) | " + rec["score"] + "/10`"
    else if c == Repeating || c == Current then
      "**" + name + "** - `" + rec["progress"] + " | " + rec["score"] + "/10`"
    else
      "**" + name + "** - `" + rec["score"] + "/10`"
  }

  /** What one member adds to the buckets: a category and a line, or nothing.
      Only a present entry whose status is one of the six catalog names
      contributes. */
  function Contribution(m: Member): (r: Option<(Category, string)>)
    ensures r.Some? <==> m.entry.Some? && Classify(Render(m.entry.value.status)).Some?
    ensures r.Some? ==> Classify(Render(m.entry.value.status)) == Some(r.value.0)
  {
    var rec := UserRecord(m.entry);
    match Classify(rec["status"])
    case None => None
    case Some(c) =>
      assert m.entry.Some?;
      Some((c, FormatLine(m.name, c, rec)))
  }

  /** The line of member `m` if it belongs in category `c`. */
  function LineFor(m: Member, c: Category): Option<string> {
    match Contribution(m)
    case Some((c', line)) => if c' == c then Some(line) else None
    case None => None
  }

  // ------------------------------------------------- the four line formats

  /** A classified member's contribution is its category and the line
      formatted from its record. */
  lemma {:induction false} ContributionOf(m: Member, c: Category)
    requires m.entry.Some? && Classify(Render(m.entry.value.status)) == Some(c)
    ensures Contribution(m) == Some((c, FormatLine(m.name, c, UserRecord(m.entry))))
  {
  }

  /** An entry carrying a catalog name classifies into its category. */
  lemma {:induction false} EntryClassified(e: ListEntry, c: Category)
    requires e.status == Str(WireName(c))
    ensures Classify(Render(e.status)) == Some(c)
  {
    ClassifyEntryStatus(e, c);
  }

  /** The line of a member classified as Completed: with the repeat count
      unless the repeat value is the integer zero. */
  lemma {:induction false} CompletedLine(name: string, e: ListEntry)
    requires Classify(Render(e.status)) == Some(Completed)
    ensures Contribution(Member(name, Some(e)))
         == Some((Completed,
                  if e.repeat != Int(0)
                  then "**" + name + "** - `" + Render(e.repeat) + " repeat(s) | "
                       + Render(e.score) + "/10`"
                  else "**" + name + "** - `" + Render(e.score) + "/10`"))
  {
    ContributionOf(Member(name, Some(e)), Completed);
    RepeatIsZero(e);
  }

  /** Completed with a repeat count other than zero: repeats and score. */
  lemma {:induction false} CompletedWithRepeatsLine(name: string, e: ListEntry)
    requires e.status == Str("COMPLETED") && e.repeat != Int(0)
    ensures Contribution(Member(name, Some(e)))
         == Some((Completed, "**" + name + "** - `" + Render(e.repeat) + " repeat(s) | "
                             + Render(e.score) + "/10`"))
  {
    EntryClassified(e, Completed);
    CompletedLine(name, e);
  }

  /** Completed with repeat count zero: the score alone. */
  lemma {:induction false} CompletedNoRepeatsLine(name: string, e: ListEntry)
    requires e.status == Str("COMPLETED") && e.repeat == Int(0)
    ensures Contribution(Member(name, Some(e)))
         == Some((Completed, "**" + name + "** - `" + Render(e.score) + "/10`"))
  {
    EntryClassified(e, Completed);
    CompletedLine(name, e);
  }

  /** Repeating and Current: progress and score. */
  lemma {:induction false} ProgressLine(name: string, e: ListEntry, c: Category)
    requires c == Repeating || c == Current
    requires e.status == Str(WireName(c))
    ensures Contribution(Member(name, Some(e)))
         == Some((c, "**" + name + "** - `" + Render(e.progress) + " | "
                     + Render(e.score) + "/10`"))
  {
    ClassifyEntryStatus(e, c);
  }

  /** Planning, Paused and Dropped: the score alone. */
  lemma {:induction false} ScoreOnlyLine(name: string, e: ListEntry, c: Category)
    requires c == Planning || c == Paused || c == Dropped
    requires e.status == Str(WireName(c))
    ensures Contribution(Member(name, Some(e)))
         == Some((c, "**" + name + "** - `" + Render(e.score) + "/10`"))
  {
    ClassifyEntryStatus(e, c);
  }

  /** A member without an entry, or whose entry's status is not one of the
      six catalog names, contributes nothing. */
  lemma {:induction false} NoLineUnlessClassified(m: Member)
    requires m.entry.None? || forall c :: m.entry.value.status != Str(WireName(c))
    ensures Contribution(m) == None
  {
    if m.entry.Some? && Contribution(m).Some? {
      var c := Contribution(m).value.0;
      ClassifyEntryStatus(m.entry.value, c);
      assert false;
    }
  }
}
