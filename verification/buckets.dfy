/** The per-category buckets the member loop fills.

    `Bucket(ms, c)` is the reference definition: the lines of the members
    classified into `c`, in member order. `Aggregate` is the loop the search
    runs, appending each classified member's line to its bucket; its contract
    ties the loop to the reference. The lemmas say what the buckets promise:
    every bucket is in member order, every classified member lands in exactly
    one bucket, and a member that does not classify leaves every bucket
    unchanged. */
module Buckets {
  import opened Options
  import opened FilterMaps
  import opened Status

  type Buckets = map<Category, seq<string>>

  /** Picks the line of a member that belongs in `c`. */
  function Selector(c: Category): Member -> Option<string> {
    m => LineFor(m, c)
  }

  /** The lines of the members classified into `c`, in member order. */
  function Bucket(ms: seq<Member>, c: Category): seq<string> {
    FilterMap(ms, Selector(c))
  }

  /** All six buckets of a member list. */
  function BucketMap(ms: seq<Member>): (b: Buckets)
    ensures b.Keys == AllCategories
  {
    map c | c in AllCategories :: Bucket(ms, c)
  }

  /** Position of member `i`'s line within bucket `c`. */
  function BucketRank(ms: seq<Member>, c: Category, i: nat): nat
    requires i <= |ms|
  {
    Rank(ms, Selector(c), i)
  }

  /** The member loop: six empty buckets, then each member's line, if it has
      one, appended to its category's bucket. */
  method Aggregate(members: seq<Member>) returns (buckets: Buckets)
    ensures buckets.Keys == AllCategories
    ensures forall c :: c in buckets ==> buckets[c] == Bucket(members, c)
  {
    buckets := map c | c in AllCategories :: [];
    assert forall c :: Bucket(members[..0], c) == [];
    for i := 0 to |members|
      invariant buckets.Keys == AllCategories
      invariant forall c :: c in buckets ==> buckets[c] == Bucket(members[..i], c)
    {
      var m := members[i];
      assert members[..i + 1] == members[..i] + [m];
      ghost var before := buckets;
      match Contribution(m) {
        case Some((c, line)) =>
          buckets := buckets[c := buckets[c] + [line]];
        case None =>
      }
      AppendStep(before, members[..i], m, buckets);
    }
    assert members[..|members|] == members;
  }

  /** What member `m` adds to bucket `c`. */
  function Added(m: Member, c: Category): seq<string> {
    match LineFor(m, c)
    case Some(line) => [line]
    case None => []
  }

  lemma {:induction false} BucketSnoc(ms: seq<Member>, m: Member, c: Category)
    ensures Bucket(ms + [m], c) == Bucket(ms, c) + Added(m, c)
  {
    FilterMapAppend(ms, [m], Selector(c));
    FilterMapSingle(m, Selector(c));
  }

  /** One turn of the member loop keeps every bucket equal to its reference. */
  lemma {:induction false} AppendStep(before: Buckets, ms: seq<Member>, m: Member, after: Buckets)
    requires before.Keys == AllCategories
    requires forall c :: c in before ==> before[c] == Bucket(ms, c)
    requires after == match Contribution(m)
                      case Some((c, line)) => before[c := before[c] + [line]]
                      case None => before
    ensures after.Keys == AllCategories
    ensures forall c :: c in after ==> after[c] == Bucket(ms + [m], c)
  {
    forall c | c in after
      ensures after[c] == Bucket(ms + [m], c)
    {
      BucketSnoc(ms, m, c);
    }
  }

  // ------------------------------------------------------------------ order

  /** Entry `k` of bucket `c` comes from some member. */
  ghost predicate HasSource(ms: seq<Member>, c: Category, k: nat) {
    exists i :: LineFrom(ms, c, k, i)
  }

  /** Entry `k` of bucket `c` is the line of member `i`. */
  predicate LineFrom(ms: seq<Member>, c: Category, k: nat, i: int) {
    && 0 <= i < |ms|
    && LineFor(ms[i], c).Some?
    && BucketRank(ms, c, i) == k
    && k < |Bucket(ms, c)|
    && Bucket(ms, c)[k] == LineFor(ms[i], c).value
  }

  /** Every bucket lists its members in member order: a classified member's
      line sits at its rank, ranks grow strictly along the member list, and
      every line of the bucket is some classified member's line. */
  lemma {:induction false} BucketOrder(ms: seq<Member>, c: Category)
    ensures forall i :: 0 <= i < |ms| && LineFor(ms[i], c).Some? ==>
              BucketRank(ms, c, i) < |Bucket(ms, c)|
              && Bucket(ms, c)[BucketRank(ms, c, i)] == LineFor(ms[i], c).value
    ensures forall i, j :: 0 <= i < j <= |ms| && LineFor(ms[i], c).Some? ==>
              BucketRank(ms, c, i) < BucketRank(ms, c, j)
    ensures forall k :: 0 <= k < |Bucket(ms, c)| ==> HasSource(ms, c, k)
  {
    var f := Selector(c);
    forall i | 0 <= i < |ms| && LineFor(ms[i], c).Some?
      ensures BucketRank(ms, c, i) < |Bucket(ms, c)|
              && Bucket(ms, c)[BucketRank(ms, c, i)] == LineFor(ms[i], c).value
    {
      FilterMapAt(ms, f, i);
    }
    forall i, j | 0 <= i < j <= |ms| && LineFor(ms[i], c).Some?
      ensures BucketRank(ms, c, i) < BucketRank(ms, c, j)
    {
      RankIncreases(ms, f, i, j);
    }
    forall k | 0 <= k < |Bucket(ms, c)|
      ensures HasSource(ms, c, k)
    {
      FilterMapFrom(ms, f, k);
      var i :| 0 <= i < |ms| && f(ms[i]).Some? && Rank(ms, f, i) == k
               && FilterMap(ms, f)[k] == f(ms[i]).value;
      assert LineFrom(ms, c, k, i);
    }
  }

  // ------------------------------------------------------------- partition

  /** A member's line goes to its own category's bucket and to no other. */
  lemma {:induction false} ExactlyOneBucket(m: Member, c: Category)
    ensures Contribution(m).Some? && Contribution(m).value.0 == c ==>
              Bucket([m], c) == [Contribution(m).value.1]
    ensures Contribution(m).None? || Contribution(m).value.0 != c ==>
              Bucket([m], c) == []
  {
  }

  /** The members that classify, in order. */
  function Classified(ms: seq<Member>): seq<(Category, string)> {
    FilterMap(ms, Contribution)
  }

  /** The six buckets together hold one line per classified member. */
  function TotalLines(ms: seq<Member>): nat {
    |Bucket(ms, Repeating)| + |Bucket(ms, Current)| + |Bucket(ms, Completed)|
      + |Bucket(ms, Planning)| + |Bucket(ms, Paused)| + |Bucket(ms, Dropped)|
  }

  lemma {:induction false} TotalLinesCount(ms: seq<Member>)
    ensures TotalLines(ms) == |Classified(ms)|
    decreases |ms|
  {
    if ms != [] {
      var m, rest := ms[0], ms[1..];
      assert ms == [m] + rest;
      BucketCons(m, rest, Repeating);
      BucketCons(m, rest, Current);
      BucketCons(m, rest, Completed);
      BucketCons(m, rest, Planning);
      BucketCons(m, rest, Paused);
      BucketCons(m, rest, Dropped);
      FilterMapAppend([m], rest, Contribution);
      TotalLinesCount(rest);
      SingleTotal(m);
    }
  }

  lemma {:induction false} BucketCons(m: Member, rest: seq<Member>, c: Category)
    ensures Bucket([m] + rest, c) == Bucket([m], c) + Bucket(rest, c)
  {
    FilterMapAppend([m], rest, Selector(c));
  }

  /** One member counts once in the buckets iff it classifies. */
  lemma {:induction false} SingleTotal(m: Member)
    ensures TotalLines([m]) == |Classified([m])|
  {
    FilterMapSingle(m, Contribution);
    ExactlyOneBucket(m, Repeating);
    ExactlyOneBucket(m, Current);
    ExactlyOneBucket(m, Completed);
    ExactlyOneBucket(m, Planning);
    ExactlyOneBucket(m, Paused);
    ExactlyOneBucket(m, Dropped);
  }

  /** A member that does not classify (no entry, or an unknown status) can
      be taken out of the list without changing any bucket. */
  lemma {:induction false} UnclassifiedInvisible(a: seq<Member>, x: Member, b: seq<Member>, c: Category)
    requires Contribution(x).None?
    ensures Bucket(a + [x] + b, c) == Bucket(a + b, c)
  {
    var f := Selector(c);
    var ax := a + [x];
    FilterMapAppend(ax, b, f);
    FilterMapAppend(a, [x], f);
    FilterMapAppend(a, b, f);
    FilterMapSingle(x, f);
    assert FilterMap(ax, f) == FilterMap(a, f);
  }
}
