/** Assembling the search result.

    The result has two parts. The first is the list of display lines: seven
    descriptive lines about the media (episodes, status, average score, mean
    score, popularity, favourites, genres), each trimmed of double quotes at
    both ends and dropped if its text contains `null`, followed by one block
    per non-empty status bucket in the fixed order Repeating, Current,
    Completed, Planning, Paused, Dropped. The second is four identity strings
    (title, page URL, cover image, banner image), each the JSON text of the
    field with every leading and trailing double quote removed. */
module Assembly {
  import opened Options
  import opened FilterMaps
  import opened Json
  import opened Text
  import opened Records
  import opened Status
  import opened Buckets

  /** The media fields the search reads from the catalog's answer. Genres
      arrive as plain strings; popularity and favourites as integers. */
  datatype Media = Media(
    title: Value,
    status: Value,
    episodes: Value,
    genres: seq<string>,
    meanScore: Value,
    averageScore: Value,
    popularity: int,
    favourites: int,
    siteUrl: Value,
    coverImage: Value,
    bannerImage: Value)

  datatype SearchOutput = SearchOutput(results: seq<string>, info: seq<string>)

  // ------------------------------------------------------ descriptive lines

  /** The media status with every double quote deleted. */
  function StatusText(media: Media): string {
    RemoveChar(Render(media.status), '"')
  }

  /** One descriptive line: a padded name between backticks, then the value
      in bold, then `tail` (a closing `**`, preceded by `%` for scores and
      followed by a newline for the genres). */
  function FactLine(name: string, value: string, tail: string): string {
    "`" + name + ":` **" + value + tail
  }

  /** The padded names, values and tails of the seven candidate lines, in
      display order: episodes, status, average score, mean score,
      popularity, favourites, genres. */
  const FactNames: seq<string> :=
    ["All Episodes ", "Status       ", "Avg Score    ", "Mean Score   ",
     "Popularity   ", "Favourites   ", "Genres       "]

  const FactTails: seq<string> := ["**", "**", "%**", "%**", "**", "**", "**\n"]

  function FactValues(media: Media): (r: seq<string>)
    ensures |r| == 7
  {
    [Render(media.episodes), StatusText(media), Render(media.averageScore),
     Render(media.meanScore), Thousands(media.popularity), Thousands(media.favourites),
     Join(media.genres, ", ")]
  }

  /** Candidate line `i`. */
  function Fact(media: Media, i: nat): string
    requires i < 7
  {
    FactLine(FactNames[i], FactValues(media)[i], FactTails[i])
  }

  /** The seven candidate lines, in display order. */
  function Facts(media: Media): (r: seq<string>)
    ensures |r| == 7
  {
    seq(7, i requires 0 <= i < 7 => Fact(media, i))
  }

  function EpisodesLine(media: Media): string { Fact(media, 0) }
  function StatusLine(media: Media): string { Fact(media, 1) }
  function AverageScoreLine(media: Media): string { Fact(media, 2) }
  function MeanScoreLine(media: Media): string { Fact(media, 3) }
  function PopularityLine(media: Media): string { Fact(media, 4) }
  function FavouritesLine(media: Media): string { Fact(media, 5) }

  /** A candidate line after quote trimming, unless it mentions `null`. */
  function Shown(line: string): Option<string> {
    var t := TrimMatches(line, '"');
    if IsInfix("null", t) then None else Some(t)
  }

  function DescriptiveLines(media: Media): seq<string> {
    FilterMap(Facts(media), Shown)
  }

  // --------------------------------------------------------- status blocks

  /** The block for one category: a header line, then the bucket's lines,
      each on its own quoted line. */
  function Block(c: Category, lines: seq<string>): string {
    "`" + Label(c) + "    :`\n> " + Join(lines, "\n> ") + "\n"
  }

  /** The first letters of the category labels. */
  predicate IsBlockInitial(ch: char) {
    ch == 'R' || ch == 'C' || ch == 'P' || ch == 'D'
  }

  /** The block of category `c`, if its bucket has any line. */
  function BlockOf(b: Buckets): Category -> Option<string> {
    c => if c in b && b[c] != [] then Some(Block(c, b[c])) else None
  }

  function CategoryBlocks(b: Buckets): seq<string> {
    FilterMap(DisplayOrder, BlockOf(b))
  }

  // ------------------------------------------------------- identity fields

  /** A field's JSON text without its leading and trailing quotes. */
  function Identity(v: Value): string {
    TrimMatches(Render(v), '"')
  }

  function IdentityFields(media: Media): seq<string> {
    [Identity(media.title), Identity(media.siteUrl),
     Identity(media.coverImage), Identity(media.bannerImage)]
  }

  // ----------------------------------------------------------------- search

  /** The search result for a media and the member list with each member's
      list entry: a result line is either a candidate line without `null` or
      the block of a category whose bucket is non-empty, and every such line
      is there; at most seven descriptive lines and six blocks, and exactly
      four identity strings. */
  function Report(media: Media, members: seq<Member>): (out: SearchOutput)
    ensures |out.info| == 4
    ensures |out.results| <= 13
    ensures forall x :: x in out.results <==>
              (x in Facts(media) && !IsInfix("null", x))
              || exists c :: Bucket(members, c) != [] && x == Block(c, Bucket(members, c))
  {
    ResultsContents(media, members);
    SearchOutput(DescriptiveLines(media) + CategoryBlocks(BucketMap(members)),
                 IdentityFields(media))
  }

  /** The search as the source runs it: the member loop fills the buckets,
      then the result is assembled from them. */
  method Search(media: Media, members: seq<Member>) returns (results: seq<string>, info: seq<string>)
    ensures SearchOutput(results, info) == Report(media, members)
  {
    var buckets := Aggregate(members);
    assert buckets == BucketMap(members);
    results := DescriptiveLines(media) + CategoryBlocks(buckets);
    info := IdentityFields(media);
  }

  // ====================================================== properties

  /** A descriptive line starts with a backtick, has the name's first
      letter second, and ends with the tail's last character. */
  lemma {:induction false} FactLineShape(name: string, value: string, tail: string)
    requires name != [] && tail != []
    ensures var line := FactLine(name, value, tail);
            line[0] == '`' && line[1] == name[0] && line[|line| - 1] == tail[|tail| - 1]
  {
    var line := FactLine(name, value, tail);
    assert line == "`" + (name + (":` **" + value + tail));
    assert line == ("`" + name + ":` **" + value) + tail;
  }

  /** Every candidate line starts with a backtick and ends with an asterisk
      or a newline. */
  lemma {:induction false} FactEnds(media: Media, i: nat)
    requires i < 7
    ensures var line := Facts(media)[i];
            line != [] && line[0] == '`' && line[|line| - 1] in "*\n"
  {
    assert FactNames[i] != [];
    assert FactTails[i] != [] && FactTails[i][|FactTails[i]| - 1] in "*\n";
    FactLineShape(FactNames[i], FactValues(media)[i], FactTails[i]);
  }

  /** Every candidate line starts with a backtick and ends with `*` or a
      newline, so the quote trimming never changes one. */
  lemma {:induction false} FactsTrimmed(media: Media, i: nat)
    requires i < 7
    ensures TrimMatches(Facts(media)[i], '"') == Facts(media)[i]
    ensures Shown(Facts(media)[i])
         == if IsInfix("null", Facts(media)[i]) then None else Some(Facts(media)[i])
  {
    var line := Facts(media)[i];
    FactEnds(media, i);
    TrimMatchesNoOp(line, '"');
  }

  /** The descriptive lines are the candidates without `null`, in the
      candidates' order: a candidate survives, at its rank, exactly when its
      text has no `null`; ranks grow along the candidates; and every
      descriptive line is such a survivor. */
  lemma {:induction false} DescriptiveLinesFilter(media: Media)
    ensures |DescriptiveLines(media)| <= 7
    ensures forall i :: 0 <= i < 7 && !IsInfix("null", Facts(media)[i]) ==>
              Rank(Facts(media), Shown, i) < |DescriptiveLines(media)|
              && DescriptiveLines(media)[Rank(Facts(media), Shown, i)] == Facts(media)[i]
    ensures forall i, j :: 0 <= i < j <= 7 && !IsInfix("null", Facts(media)[i]) ==>
              Rank(Facts(media), Shown, i) < Rank(Facts(media), Shown, j)
    ensures forall x :: x in DescriptiveLines(media) <==>
              x in Facts(media) && !IsInfix("null", x)
  {
    AllFactsTrimmed(media);
    NullFilter(Facts(media));
  }

  lemma {:induction false} AllFactsTrimmed(media: Media)
    ensures forall i :: 0 <= i < |Facts(media)| ==> TrimMatches(Facts(media)[i], '"') == Facts(media)[i]
  {
    forall i | 0 <= i < |Facts(media)|
      ensures TrimMatches(Facts(media)[i], '"') == Facts(media)[i]
    {
      FactsTrimmed(media, i);
    }
  }

  /** Filtering lines that trimming leaves alone keeps exactly the ones
      without `null`, in order. */
  lemma {:induction false} NullFilter(xs: seq<string>)
    requires forall i :: 0 <= i < |xs| ==> TrimMatches(xs[i], '"') == xs[i]
    ensures forall i :: 0 <= i < |xs| && !IsInfix("null", xs[i]) ==>
              Rank(xs, Shown, i) < |FilterMap(xs, Shown)|
              && FilterMap(xs, Shown)[Rank(xs, Shown, i)] == xs[i]
    ensures forall i, j :: 0 <= i < j <= |xs| && !IsInfix("null", xs[i]) ==>
              Rank(xs, Shown, i) < Rank(xs, Shown, j)
    ensures forall x :: x in FilterMap(xs, Shown) <==> x in xs && !IsInfix("null", x)
  {
    forall i | 0 <= i < |xs| && !IsInfix("null", xs[i])
      ensures Rank(xs, Shown, i) < |FilterMap(xs, Shown)|
              && FilterMap(xs, Shown)[Rank(xs, Shown, i)] == xs[i]
    {
      FilterMapAt(xs, Shown, i);
    }
    forall i, j | 0 <= i < j <= |xs| && !IsInfix("null", xs[i])
      ensures Rank(xs, Shown, i) < Rank(xs, Shown, j)
    {
      RankIncreases(xs, Shown, i, j);
    }
    forall x
      ensures x in FilterMap(xs, Shown) <==> x in xs && !IsInfix("null", x)
    {
      FilterMapMembership(xs, Shown, x);
    }
  }

  /** A rendered integer is a minus sign and digits. */
  lemma {:induction false} IntegerChars(i: int)
    ensures forall ch :: ch in Render(Int(i)) ==> ch == '-' || IsDigitChar(ch)
  {
    var d := NatToString(if i < 0 then -i else i);
    assert forall ch :: ch in d ==> IsDigitChar(ch);
  }

  /** A grouped count is a minus sign, digits and commas. */
  lemma {:induction false} ThousandsChars(n: int)
    ensures forall ch :: ch in Thousands(n) ==> ch == '-' || ch == ',' || IsDigitChar(ch)
  {
    var d := NatToString(if n < 0 then -n else n);
    assert forall ch :: ch in d ==> IsDigitChar(ch);
    GroupDigitsChars(d);
  }

  /** Every output line after the descriptive ones is the block of a
      category whose bucket is non-empty. */
  lemma {:induction false} BlocksFromBuckets(ms: seq<Member>, x: string)
    requires x in CategoryBlocks(BucketMap(ms))
    ensures exists c :: Bucket(ms, c) != [] && x == Block(c, Bucket(ms, c))
  {
    FilterMapMembership(DisplayOrder, BlockOf(BucketMap(ms)), x);
    var i :| 0 <= i < |DisplayOrder| && BlockOf(BucketMap(ms))(DisplayOrder[i]) == Some(x);
    var c := DisplayOrder[i];
    assert Bucket(ms, c) != [] && x == Block(c, Bucket(ms, c));
  }

  /** The result lines are the candidates without `null` and the blocks of
      the non-empty buckets, and nothing else. */
  lemma {:induction false} ResultsContents(media: Media, ms: seq<Member>)
    ensures |DescriptiveLines(media) + CategoryBlocks(BucketMap(ms))| <= 13
    ensures forall x :: x in DescriptiveLines(media) + CategoryBlocks(BucketMap(ms)) <==>
              (x in Facts(media) && !IsInfix("null", x))
              || exists c :: Bucket(ms, c) != [] && x == Block(c, Bucket(ms, c))
  {
    DescriptiveLinesFilter(media);
    BlocksContents(ms);
  }

  /** The blocks are exactly those of the categories with a non-empty
      bucket. */
  lemma {:induction false} BlocksContents(ms: seq<Member>)
    ensures |CategoryBlocks(BucketMap(ms))| <= 6
    ensures forall x :: x in CategoryBlocks(BucketMap(ms)) <==>
              exists c :: Bucket(ms, c) != [] && x == Block(c, Bucket(ms, c))
  {
    forall x
      ensures x in CategoryBlocks(BucketMap(ms)) <==>
              exists c :: Bucket(ms, c) != [] && x == Block(c, Bucket(ms, c))
    {
      if x in CategoryBlocks(BucketMap(ms)) {
        BlocksFromBuckets(ms, x);
      }
      if c :| Bucket(ms, c) != [] && x == Block(c, Bucket(ms, c)) {
        BlockPresent(ms, c);
      }
    }
  }

  /** A category with a non-empty bucket has its block among the blocks. */
  lemma {:induction false} BlockPresent(ms: seq<Member>, c: Category)
    requires Bucket(ms, c) != []
    ensures Block(c, Bucket(ms, c)) in CategoryBlocks(BucketMap(ms))
  {
    var i := DisplayIndex(c);
    BlockAtRank(ms, i);
  }

  /** The position of a category in the display order. */
  function DisplayIndex(c: Category): (i: nat)
    ensures i < 6 && DisplayOrder[i] == c
  {
    match c
    case Repeating => 0
    case Current => 1
    case Completed => 2
    case Planning => 3
    case Paused => 4
    case Dropped => 5
  }

  /** The second character of a block is the initial of its label. */
  lemma {:induction false} BlockInitial(ms: seq<Member>, x: string)
    requires x in CategoryBlocks(BucketMap(ms))
    ensures |x| > 1 && IsBlockInitial(x[1])
  {
    BlocksFromBuckets(ms, x);
    var c :| Bucket(ms, c) != [] && x == Block(c, Bucket(ms, c));
    BlockInitialOf(c, Bucket(ms, c));
  }

  lemma {:induction false} BlockInitialOf(c: Category, lines: seq<string>)
    ensures |Block(c, lines)| > 1 && IsBlockInitial(Block(c, lines)[1])
  {
    var name := Label(c);
    assert |name| > 0 && IsBlockInitial(name[0]);
    var rest := "    :`\n> " + Join(lines, "\n> ") + "\n";
    assert Block(c, lines) == "`" + (name + rest);
  }

  /** A candidate line without `null` is in the result. */
  lemma {:induction false} FactShown(media: Media, ms: seq<Member>, i: nat)
    requires i < 7 && !IsInfix("null", Facts(media)[i])
    ensures Facts(media)[i] in Report(media, ms).results
  {
    DescriptiveLinesFilter(media);
    assert Facts(media)[i] in DescriptiveLines(media);
  }

  /** A candidate line with `null` is nowhere in the result: not among the
      descriptive lines, and not a block, whose second character is the
      first letter of a category label. */
  lemma {:induction false} FactHidden(media: Media, ms: seq<Member>, i: nat)
    requires i < 7 && IsInfix("null", Facts(media)[i])
    requires !IsBlockInitial(Facts(media)[i][1])
    ensures Facts(media)[i] !in Report(media, ms).results
  {
    var x := Facts(media)[i];
    DescriptiveLinesFilter(media);
    assert x !in DescriptiveLines(media);
    if x in CategoryBlocks(BucketMap(ms)) {
      BlockInitial(ms, x);
    }
  }

  /** A descriptive line cannot contain `null` when some letter of `null`
      occurs in none of its parts. */
  lemma {:induction false} NullFreeLine(name: string, value: string, tail: string, k: nat)
    requires k < 4 && "null"[k] !in name && "null"[k] !in value && "null"[k] !in tail
    ensures !IsInfix("null", FactLine(name, value, tail))
  {
    assert "null"[k] !in "`" + name + ":` **";
    MissingCharNotInfix("null", FactLine(name, value, tail), k);
  }

  /** A descriptive line whose value is the text `null` contains `null`. */
  lemma {:induction false} NullLine(name: string, tail: string)
    ensures IsInfix("null", FactLine(name, "null", tail))
  {
    InfixOfConcat("null", "`" + name + ":` **", tail);
  }

  /** The candidate line `i` is in the result when its value is an integer
      and absent when its value is JSON null. */
  lemma {:induction false} NumberFact(media: Media, ms: seq<Member>, i: nat, v: Value)
    requires i < 7 && FactValues(media)[i] == Render(v)
    requires FactNames[i] != [] && !IsBlockInitial(FactNames[i][0]) && FactTails[i] != []
    requires 'u' !in FactNames[i] && 'u' !in FactTails[i]
    ensures v.Int? ==> Fact(media, i) in Report(media, ms).results
    ensures v == Null ==> Fact(media, i) !in Report(media, ms).results
  {
    if v.Int? {
      IntegerChars(v.i);
      NullFreeLine(FactNames[i], Render(v), FactTails[i], 1);
      FactShown(media, ms, i);
    } else if v == Null {
      NullFact(media, ms, i);
    }
  }

  /** A candidate line whose value is the text `null` is not in the result. */
  lemma {:induction false} NullFact(media: Media, ms: seq<Member>, i: nat)
    requires i < 7 && FactValues(media)[i] == "null"
    requires FactNames[i] != [] && !IsBlockInitial(FactNames[i][0]) && FactTails[i] != []
    ensures Fact(media, i) !in Report(media, ms).results
  {
    NullLine(FactNames[i], FactTails[i]);
    FactLineShape(FactNames[i], "null", FactTails[i]);
    FactHidden(media, ms, i);
  }

  /** The episode count is shown when it is an integer and hidden when it
      is JSON null. */
  lemma {:induction false} EpisodesShown(media: Media, ms: seq<Member>)
    ensures media.episodes.Int? ==> EpisodesLine(media) in Report(media, ms).results
    ensures media.episodes == Null ==> EpisodesLine(media) !in Report(media, ms).results
  {
    NumberFact(media, ms, 0, media.episodes);
  }

  /** A missing media status hides the status line. */
  lemma {:induction false} StatusHidden(media: Media, ms: seq<Member>)
    requires media.status == Null
    ensures StatusLine(media) !in Report(media, ms).results
  {
    NullStatusText(media);
    NullFact(media, ms, 1);
  }

  /** A missing media status reads `null`: there is no quote to delete. */
  lemma {:induction false} NullStatusText(media: Media)
    requires media.status == Null
    ensures StatusText(media) == "null"
  {
    assert '"' !in "null";
    RemoveCharSpec("null", '"');
  }

  /** A string status with nothing to escape is printed as the string
      itself: deleting the quotes removes exactly the two the JSON text put
      around it. */
  lemma {:induction false} StatusOfString(media: Media, s: string)
    requires media.status == Str(s)
    requires forall i :: 0 <= i < |s| ==> !NeedsEscape(s[i])
    ensures StatusText(media) == s
  {
    EscapePlain(s);
    assert '"' !in s;
    assert Render(media.status) == "\"" + (s + "\"");
    RemoveCharAppend("\"", s + "\"", '"');
    RemoveCharAppend(s, "\"", '"');
    RemoveCharSpec(s, '"');
    DropQuote();
  }

  lemma {:induction false} DropQuote()
    ensures RemoveChar("\"", '"') == []
  {
    assert "\""[1..] == [];
  }

  /** A plain string status without the letter `n` (every catalog status is
      upper case) keeps the status line, showing the status itself. */
  lemma {:induction false} StatusShown(media: Media, ms: seq<Member>, s: string)
    requires media.status == Str(s)
    requires forall i :: 0 <= i < |s| ==> !NeedsEscape(s[i])
    requires 'n' !in s
    ensures StatusLine(media) == FactLine(FactNames[1], s, FactTails[1])
    ensures StatusLine(media) in Report(media, ms).results
  {
    StatusOfString(media, s);
    NullFreeLine(FactNames[1], s, FactTails[1], 0);
    FactShown(media, ms, 1);
  }

  /** The average score is shown when it is an integer and hidden when it is
      JSON null. */
  lemma {:induction false} AverageScoreShown(media: Media, ms: seq<Member>)
    ensures media.averageScore.Int? ==> AverageScoreLine(media) in Report(media, ms).results
    ensures media.averageScore == Null ==> AverageScoreLine(media) !in Report(media, ms).results
  {
    NumberFact(media, ms, 2, media.averageScore);
  }

  /** The mean score is shown when it is an integer and hidden when it is
      JSON null. */
  lemma {:induction false} MeanScoreShown(media: Media, ms: seq<Member>)
    ensures media.meanScore.Int? ==> MeanScoreLine(media) in Report(media, ms).results
    ensures media.meanScore == Null ==> MeanScoreLine(media) !in Report(media, ms).results
  {
    NumberFact(media, ms, 3, media.meanScore);
  }

  /** Popularity is always shown. */
  lemma {:induction false} PopularityShown(media: Media, ms: seq<Member>)
    ensures PopularityLine(media) in Report(media, ms).results
  {
    CountShown(media, ms, 4, media.popularity);
  }

  /** Favourites are always shown. */
  lemma {:induction false} FavouritesShown(media: Media, ms: seq<Member>)
    ensures FavouritesLine(media) in Report(media, ms).results
  {
    CountShown(media, ms, 5, media.favourites);
  }

  /** A candidate line holding a grouped count is in the result. */
  lemma {:induction false} CountShown(media: Media, ms: seq<Member>, i: nat, n: int)
    requires i < 7 && FactValues(media)[i] == Thousands(n)
    requires 'n' !in FactNames[i] && 'n' !in FactTails[i]
    ensures Fact(media, i) in Report(media, ms).results
  {
    ThousandsChars(n);
    NullFreeLine(FactNames[i], Thousands(n), FactTails[i], 0);
    FactShown(media, ms, i);
  }

  /** The blocks follow the display order: a category with a non-empty
      bucket has its block at its rank, ranks grow along the display order,
      and every block belongs to a category whose bucket is non-empty. */
  lemma {:induction false} BlocksInDisplayOrder(ms: seq<Member>)
    ensures |CategoryBlocks(BucketMap(ms))| <= 6
    ensures forall i :: 0 <= i < 6 && Bucket(ms, DisplayOrder[i]) != [] ==>
              BlockRank(ms, i) < |CategoryBlocks(BucketMap(ms))|
              && CategoryBlocks(BucketMap(ms))[BlockRank(ms, i)]
                 == Block(DisplayOrder[i], Bucket(ms, DisplayOrder[i]))
    ensures forall i, j :: 0 <= i < j <= 6 && Bucket(ms, DisplayOrder[i]) != [] ==>
              BlockRank(ms, i) < BlockRank(ms, j)
    ensures forall x :: x in CategoryBlocks(BucketMap(ms)) ==>
              exists c :: Bucket(ms, c) != [] && x == Block(c, Bucket(ms, c))
  {
    forall i | 0 <= i < 6 && Bucket(ms, DisplayOrder[i]) != []
      ensures BlockRank(ms, i) < |CategoryBlocks(BucketMap(ms))|
              && CategoryBlocks(BucketMap(ms))[BlockRank(ms, i)]
                 == Block(DisplayOrder[i], Bucket(ms, DisplayOrder[i]))
    {
      BlockAtRank(ms, i);
    }
    forall i, j | 0 <= i < j <= 6 && Bucket(ms, DisplayOrder[i]) != []
      ensures BlockRank(ms, i) < BlockRank(ms, j)
    {
      RankIncreases(DisplayOrder, BlockOf(BucketMap(ms)), i, j);
    }
    forall x | x in CategoryBlocks(BucketMap(ms))
      ensures exists c :: Bucket(ms, c) != [] && x == Block(c, Bucket(ms, c))
    {
      BlocksFromBuckets(ms, x);
    }
  }

  /** The block of a non-empty bucket sits at the bucket's rank. */
  lemma {:induction false} BlockAtRank(ms: seq<Member>, i: nat)
    requires i < 6 && Bucket(ms, DisplayOrder[i]) != []
    ensures BlockRank(ms, i) < |CategoryBlocks(BucketMap(ms))|
            && CategoryBlocks(BucketMap(ms))[BlockRank(ms, i)]
               == Block(DisplayOrder[i], Bucket(ms, DisplayOrder[i]))
  {
    FilterMapAt(DisplayOrder, BlockOf(BucketMap(ms)), i);
  }

  function BlockRank(ms: seq<Member>, i: nat): nat
    requires i <= 6
  {
    Rank(DisplayOrder, BlockOf(BucketMap(ms)), i)
  }

  /** The identity text of a JSON string: its escaped form, minus any
      trailing quotes the escaping left at the end. */
  lemma {:induction false} IdentityOfString(s: string)
    ensures Identity(Str(s)) == TrimEnd(Escape(s), '"')
  {
    var e := Escape(s);
    if e != [] {
      EscapeHead(s);
    }
    QuotedTrim(e);
  }

  /** Trimming quotes off a quoted text that does not start with a quote
      leaves the text minus its trailing quotes. */
  lemma {:induction false} QuotedTrim(e: string)
    requires e == [] || e[0] != '"'
    ensures TrimMatches("\"" + e + "\"", '"') == TrimEnd(e, '"')
  {
    var u := e + ['"'];
    assert "\"" + e + "\"" == ['"'] + u;
    TrimStartCons('"', u);
    if e == [] {
      assert TrimStart(u, '"') == TrimStart([], '"') by {
        TrimStartCons('"', []);
      }
    } else {
      assert TrimStart(u, '"') == u;
    }
    TrimEndSnoc(e, '"');
  }

  /** A string field that does not end with a quote keeps its full JSON
      escaping, so reading the escapes back gives the field's value. */
  lemma {:induction false} IdentityRoundTrip(s: string)
    requires s == [] || s[|s| - 1] != '"'
    ensures Unescape(Identity(Str(s))) == Some(s)
  {
    IdentityOfString(s);
    if s != [] {
      EscapeLast(s);
    }
    UnescapeEscape(s);
  }

  /** A string field with nothing to escape comes out as its value. */
  lemma {:induction false} IdentityPlain(s: string)
    requires forall i :: 0 <= i < |s| ==> !NeedsEscape(s[i])
    ensures Identity(Str(s)) == s
  {
    IdentityOfString(s);
    EscapePlain(s);
    if s != [] {
      assert !NeedsEscape(s[|s| - 1]);
    }
  }

  /** A string field ending with a quote loses that quote but keeps the
      backslash escaping it; a missing field (JSON null) comes out as the
      text `null`. */
  lemma {:induction false} IdentityTrailingQuote(t: string)
    requires forall i :: 0 <= i < |t| ==> !NeedsEscape(t[i])
    ensures Identity(Str(t + "\"")) == t + "\\"
    ensures Identity(Null) == "null"
  {
    assert Escape(t + "\"") == (t + "\\") + "\"" by {
      EscapePlain(t);
      EscapeAppend(t, "\"");
      assert Escape("\"") == "\\\"";
    }
    IdentityOfString(t + "\"");
    TrimEndOneQuote(t + "\\");
    assert Identity(Null) == "null" by {
      TrimMatchesNoOp("null", '"');
    }
  }

  /** Trimming the quotes off the end of a text that ends in one quote
      removes just that quote. */
  lemma {:induction false} TrimEndOneQuote(u: string)
    requires u != [] && u[|u| - 1] != '"'
    ensures TrimEnd(u + "\"", '"') == u
  {
    var w := u + "\"";
    var r := TrimEnd(w, '"');
    assert w[|u| - 1] != '"' && w[|w| - 1] == '"';
    assert |r| >= |u|;
  }

  // ------------------------------------------------------ worked example

  /** Two members: the first has completed the media without repeats, the
      second has no list entry. Only a Completed block appears, holding the
      first member's score-only line; the second member appears nowhere. */
  lemma {:induction false} CompletedAndAbsent(a: string, e: ListEntry, b: string)
    requires e.status == Str("COMPLETED") && e.repeat == Int(0)
    ensures var line := "**" + a + "** - `" + Render(e.score) + "/10`";
            CategoryBlocks(BucketMap([Member(a, Some(e)), Member(b, None)]))
            == ["`Completed    :`\n> " + line + "\n"]
  {
    var line := "**" + a + "** - `" + Render(e.score) + "/10`";
    var first, second := Member(a, Some(e)), Member(b, None);
    assert Contribution(first) == Some((Completed, line)) by {
      CompletedNoRepeatsLine(a, e);
    }
    TwoMemberBuckets(first, second, line);
    OnlyCompletedBlock([first, second], line);
  }

  lemma {:induction false} TwoMemberBuckets(first: Member, second: Member, line: string)
    requires Contribution(first) == Some((Completed, line))
    requires second.entry.None?
    ensures forall c :: Bucket([first, second], c) == if c == Completed then [line] else []
  {
    assert Contribution(second) == None;
    forall c
      ensures Bucket([first, second], c) == if c == Completed then [line] else []
    {
      FilterMapSingle(first, Selector(c));
      FilterMapSingle(second, Selector(c));
      assert [first, second] == [first] + [second];
      FilterMapAppend([first], [second], Selector(c));
    }
  }

  lemma {:induction false} OnlyCompletedBlock(ms: seq<Member>, line: string)
    requires forall c :: Bucket(ms, c) == if c == Completed then [line] else []
    ensures CategoryBlocks(BucketMap(ms)) == ["`Completed    :`\n> " + line + "\n"]
  {
    var b := BucketMap(ms);
    assert Completed in b && b[Completed] == [line];
    assert forall c :: c in b && c != Completed ==> b[c] == [];
    SingleBlock(b, line);
    CompletedBlockText(line);
  }

  lemma {:induction false} CompletedBlockText(line: string)
    ensures Block(Completed, [line]) == "`Completed    :`\n> " + line + "\n"
  {
    JoinSnoc([], line, "\n> ");
    assert [] + [line] == [line];
  }

  lemma {:induction false} SingleBlock(b: Buckets, line: string)
    requires Completed in b && b[Completed] == [line]
    requires forall c :: c in b && c != Completed ==> b[c] == []
    ensures CategoryBlocks(b) == [Block(Completed, [line])]
  {
    var f := BlockOf(b);
    assert DisplayOrder[2] == Completed;
    forall j | 0 <= j < |DisplayOrder| && j != 2
      ensures f(DisplayOrder[j]).None?
    {
      assert DisplayOrder[j] != Completed;
    }
    FilterMapOnly(DisplayOrder, f, 2);
  }
}
