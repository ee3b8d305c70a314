/** The string operations the search code applies to its output lines:
    substring search (`contains`), trimming a character from both ends
    (`trim_matches`), deleting a character everywhere (`replace(c, "")`),
    joining with a separator (`join`), and grouping the digits of a count in
    threes with commas (the English-locale thousands format). */
module Text {
  import opened Options
  import opened FilterMaps
  import opened Json

  // --------------------------------------------------------------- contains

  /** `p` occurs in `s` as a contiguous piece. */
  predicate IsInfix(p: string, s: string)
    decreases |s|
  {
    |p| <= |s| && (s[..|p|] == p || IsInfix(p, s[1..]))
  }

  /** `p` occurs in `s` starting at position `i`. */
  predicate OccursAt(p: string, s: string, i: int) {
    0 <= i <= |s| - |p| && s[i..i + |p|] == p
  }

  /** `IsInfix` agrees with the positional definition of an occurrence. */
  lemma {:induction false} IsInfixAt(p: string, s: string)
    ensures IsInfix(p, s) <==> exists i :: OccursAt(p, s, i)
    decreases |s|
  {
    if |p| <= |s| {
      if s[..|p|] == p {
        assert OccursAt(p, s, 0);
      } else {
        IsInfixAt(p, s[1..]);
        if IsInfix(p, s[1..]) {
          var i :| OccursAt(p, s[1..], i);
          assert s[1..][i..i + |p|] == s[i + 1..i + 1 + |p|];
          assert OccursAt(p, s, i + 1);
        }
        if i :| OccursAt(p, s, i) {
          assert i != 0;
          assert s[1..][i - 1..i - 1 + |p|] == s[i..i + |p|];
          assert OccursAt(p, s[1..], i - 1);
        }
      }
    }
  }

  /** A piece occurs wherever it is placed. */
  lemma {:induction false} InfixOfConcat(p: string, a: string, b: string)
    ensures IsInfix(p, a + p + b)
  {
    var s := a + p + b;
    assert s[|a|..|a| + |p|] == p;
    assert OccursAt(p, s, |a|);
    IsInfixAt(p, s);
  }

  /** A string lacking one of the characters of `p` cannot contain `p`. */
  lemma {:induction false} MissingCharNotInfix(p: string, s: string, k: nat)
    requires k < |p| && p[k] !in s
    ensures !IsInfix(p, s)
    decreases |s|
  {
    if |p| <= |s| {
      assert s[k] in s;
      assert s[..|p|][k] != p[k];
      assert forall ch :: ch in s[1..] ==> ch in s;
      MissingCharNotInfix(p, s[1..], k);
    }
  }

  // ------------------------------------------------------------------- trim

  /** Drops every leading `c`. The result is the suffix of `s` after a run of
      `c`, and does not start with `c`. */
  function TrimStart(s: string, c: char): (r: string)
    ensures |r| <= |s| && r == s[|s| - |r|..]
    ensures forall k :: 0 <= k < |s| - |r| ==> s[k] == c
    ensures r == [] || r[0] != c
  {
    if s != [] && s[0] == c then TrimStart(s[1..], c) else s
  }

  /** Drops every trailing `c`. The result is the prefix of `s` before a run
      of `c`, and does not end with `c`. */
  function TrimEnd(s: string, c: char): (r: string)
    ensures |r| <= |s| && r == s[..|r|]
    ensures forall k :: |r| <= k < |s| ==> s[k] == c
    ensures r == [] || r[|r| - 1] != c
  {
    if s != [] && s[|s| - 1] == c then TrimEnd(s[..|s| - 1], c) else s
  }

  /** Strips every leading and trailing `c`: the result is the piece of `s`
      between two runs of `c`, with no `c` at either end, and nothing inside
      it is changed. */
  function TrimMatches(s: string, c: char): (r: string)
    ensures exists i :: FramedBy(s, r, c, i)
    ensures r == [] || (r[0] != c && r[|r| - 1] != c)
  {
    TrimFramed(s, c);
    TrimEnd(TrimStart(s, c), c)
  }

  lemma {:induction false} TrimFramed(s: string, c: char)
    ensures FramedBy(s, TrimEnd(TrimStart(s, c), c), c, |s| - |TrimStart(s, c)|)
  {
    Framed(s, TrimStart(s, c), TrimEnd(TrimStart(s, c), c), c);
  }

  /** A prefix `r` of a suffix `t` of `s`, where everything cut away on
      either side is `c`, is framed by `c` in `s`. */
  lemma {:induction false} Framed(s: string, t: string, r: string, c: char)
    requires |t| <= |s| && t == s[|s| - |t|..]
    requires forall k :: 0 <= k < |s| - |t| ==> s[k] == c
    requires |r| <= |t| && r == t[..|r|]
    requires forall k :: |r| <= k < |t| ==> t[k] == c
    ensures FramedBy(s, r, c, |s| - |t|)
  {
    var i := |s| - |t|;
    assert r == s[i..i + |r|];
    forall k | i + |r| <= k < |s|
      ensures s[k] == c
    {
      assert s[k] == t[k - i];
    }
  }

  /** A leading `c` is trimmed away. */
  lemma {:induction false} TrimStartCons(c: char, u: string)
    ensures TrimStart([c] + u, c) == TrimStart(u, c)
  {
    assert ([c] + u)[1..] == u;
  }

  /** A trailing `c` is trimmed away. */
  lemma {:induction false} TrimEndSnoc(u: string, c: char)
    ensures TrimEnd(u + [c], c) == TrimEnd(u, c)
  {
    assert (u + [c])[..|u|] == u;
  }

  /** `r` sits at position `i` of `s` with only `c` before and after it. */
  predicate FramedBy(s: string, r: string, c: char, i: int) {
    && 0 <= i <= |s| - |r|
    && r == s[i..i + |r|]
    && (forall k :: 0 <= k < i ==> s[k] == c)
    && (forall k :: i + |r| <= k < |s| ==> s[k] == c)
  }

  /** Trimming leaves alone a string that neither starts nor ends with `c`. */
  lemma {:induction false} TrimMatchesNoOp(s: string, c: char)
    requires s != [] && s[0] != c && s[|s| - 1] != c
    ensures TrimMatches(s, c) == s
  {
  }

  // ---------------------------------------------------------------- replace

  /** Deletes every `c`, keeping every other character in order. */
  function RemoveChar(s: string, c: char): string {
    if s == [] then []
    else (if s[0] == c then [] else [s[0]]) + RemoveChar(s[1..], c)
  }

  /** Accepts every character except `c`, unchanged. */
  function KeepOther(c: char): char -> Option<char> {
    ch => if ch == c then None else Some(ch)
  }

  /** Deleting `c` keeps exactly the other characters, in order (the
      `FilterMap` lemmas then give their ranks and membership): no `c` is
      left, nothing is added, and a text without `c` is unchanged. */
  lemma {:induction false} RemoveCharSpec(s: string, c: char)
    ensures RemoveChar(s, c) == FilterMap(s, KeepOther(c))
    ensures c !in RemoveChar(s, c)
    ensures |RemoveChar(s, c)| <= |s|
    ensures c !in s ==> RemoveChar(s, c) == s
  {
    if s != [] {
      RemoveCharSpec(s[1..], c);
      assert s == [s[0]] + s[1..];
    }
  }

  // ------------------------------------------------------------------- join

  /** The items separated by `sep`; empty for no items. */
  function Join(xs: seq<string>, sep: string): string {
    if xs == [] then ""
    else if |xs| == 1 then xs[0]
    else xs[0] + sep + Join(xs[1..], sep)
  }

  /** One more item is appended after a separator; a single item is joined
      to itself alone. */
  lemma {:induction false} JoinSnoc(xs: seq<string>, x: string, sep: string)
    ensures Join(xs + [x], sep) == if xs == [] then x else Join(xs, sep) + sep + x
    decreases |xs|
  {
    if xs == [] {
      assert xs + [x] == [x];
    } else if |xs| == 1 {
      assert xs + [x] == [xs[0], x];
      assert [xs[0], x][1..] == [x];
    } else {
      assert (xs + [x])[1..] == xs[1..] + [x];
      JoinSnoc(xs[1..], x, sep);
    }
  }

  // ------------------------------------------------------ thousands format

  /** Inserts a comma before every complete group of three digits counted from
      the right. */
  function GroupDigits(ds: string): string
    decreases |ds|
  {
    if |ds| <= 3 then ds
    else GroupDigits(ds[..|ds| - 3]) + "," + ds[|ds| - 3..]
  }

  /** Grouping adds nothing but commas. */
  lemma {:induction false} GroupDigitsChars(ds: string)
    ensures forall ch :: ch in GroupDigits(ds) ==> ch in ds || ch == ','
    decreases |ds|
  {
    if |ds| <= 3 {
      RemoveCharSpec(ds, ',');
    } else {
      var hi, lo := ds[..|ds| - 3], ds[|ds| - 3..];
      GroupDigitsChars(hi);
      assert forall ch :: ch in hi ==> ch in ds;
      assert forall ch :: ch in lo ==> ch in ds;
    }
  }

  /** `k` commas are inserted into a run of `3k + 1` to `3k + 3` digits. */
  lemma {:induction false} GroupDigitsLength(ds: string)
    requires ds != []
    ensures var k := |GroupDigits(ds)| - |ds|;
            k >= 0 && 3 * k < |ds| <= 3 * k + 3
    decreases |ds|
  {
    if |ds| > 3 {
      GroupDigitsLength(ds[..|ds| - 3]);
    }
  }

  /** Every comma opens a group of exactly three non-commas that runs to the
      end or to the next comma; the text does not start with a comma and
      never holds four non-commas in a row. So groups are counted from the
      right and only the leftmost one can be shorter than three. */
  predicate Grouped(g: string) {
    && (g == [] || g[0] != ',')
    && (forall k :: 0 <= k < |g| && g[k] == ',' ==> GroupAfter(g, k))
    && (forall k :: 0 <= k < |g| - 3 ==> CommaWithin(g, k))
  }

  predicate GroupAfter(g: string, k: int)
    requires 0 <= k < |g|
  {
    k + 3 < |g| && g[k + 1] != ',' && g[k + 2] != ',' && g[k + 3] != ','
    && (k + 4 == |g| || g[k + 4] == ',')
  }

  predicate CommaWithin(g: string, k: int)
    requires 0 <= k < |g| - 3
  {
    g[k] == ',' || g[k + 1] == ',' || g[k + 2] == ',' || g[k + 3] == ','
  }

  /** Grouping puts the commas where the English locale does. */
  lemma {:induction false} GroupDigitsGrouped(ds: string)
    requires ',' !in ds
    ensures Grouped(GroupDigits(ds))
    decreases |ds|
  {
    if |ds| <= 3 {
      assert ds == [] || ds[0] in ds;
    } else {
      var hi, lo := ds[..|ds| - 3], ds[|ds| - 3..];
      assert ',' !in hi && ',' !in lo by {
        assert ds == hi + lo;
      }
      GroupDigitsGrouped(hi);
      GroupDigitsLength(hi);
      GroupedSnoc(GroupDigits(hi), lo);
    }
  }

  /** A comma and one full group appended to a grouped text keep it grouped. */
  lemma {:induction false} GroupedSnoc(a: string, lo: string)
    requires Grouped(a) && a != []
    requires |lo| == 3 && ',' !in lo
    ensures Grouped(a + "," + lo)
  {
    var g, n := a + "," + lo, |a|;
    assert forall i :: 0 <= i < n ==> g[i] == a[i];
    assert g[n] == ',';
    assert g[n + 1] == lo[0] && g[n + 2] == lo[1] && g[n + 3] == lo[2];
    assert lo[0] in lo && lo[1] in lo && lo[2] in lo;
    forall k | 0 <= k < |g| && g[k] == ','
      ensures GroupAfter(g, k)
    {
      if k < n {
        assert a[k] == ',' && GroupAfter(a, k);
      }
    }
    forall k | 0 <= k < |g| - 3
      ensures CommaWithin(g, k)
    {
      if k + 3 < n {
        assert CommaWithin(a, k);
      }
    }
  }

  /** A count as the English locale prints it: `12345` becomes `12,345`. */
  function Thousands(n: int): string {
    if n < 0 then "-" + GroupDigits(NatToString(-n)) else GroupDigits(NatToString(n))
  }

  /** Removing the commas of a grouped digit string gives the digits back. */
  lemma {:induction false} GroupDigitsUngroup(ds: string)
    requires ',' !in ds
    ensures RemoveChar(GroupDigits(ds), ',') == ds
    decreases |ds|
  {
    if |ds| <= 3 {
      RemoveCharSpec(ds, ',');
    } else {
      var hi, lo := ds[..|ds| - 3], ds[|ds| - 3..];
      assert ',' !in hi && ',' !in lo by {
        assert ds == hi + lo;
      }
      GroupDigitsUngroup(hi);
      assert GroupDigits(ds) == GroupDigits(hi) + ("," + lo);
      UngroupStep(GroupDigits(hi), hi, lo);
      assert RemoveChar(GroupDigits(hi) + ("," + lo), ',') == hi + lo;
      assert RemoveChar(GroupDigits(ds), ',') == hi + lo;
      assert hi + lo == ds;
    }
  }

  /** Removing the commas of a grouped prefix, a comma and a comma-free group
      gives the ungrouped prefix followed by the group. */
  lemma {:induction false} UngroupStep(g: string, hi: string, lo: string)
    requires RemoveChar(g, ',') == hi && ',' !in lo
    ensures RemoveChar(g + ("," + lo), ',') == hi + lo
  {
    RemoveCharAppend(g, "," + lo, ',');
    DropComma(lo);
  }

  lemma {:induction false} DropComma(lo: string)
    requires ',' !in lo
    ensures RemoveChar("," + lo, ',') == lo
  {
    assert ("," + lo)[0] == ',' && ("," + lo)[1..] == lo;
    RemoveCharSpec(lo, ',');
  }

  lemma {:induction false} RemoveCharAppend(a: string, b: string, c: char)
    ensures RemoveChar(a + b, c) == RemoveChar(a, c) + RemoveChar(b, c)
  {
    if a == [] {
      assert a + b == b;
    } else {
      var head := if a[0] == c then [] else [a[0]];
      assert (a + b)[0] == a[0] && (a + b)[1..] == a[1..] + b;
      assert RemoveChar(a + b, c) == head + RemoveChar(a[1..] + b, c);
      RemoveCharAppend(a[1..], b, c);
      assert RemoveChar(a, c) == head + RemoveChar(a[1..], c);
    }
  }

  /** The grouped form of a count reads back, commas removed, as the count. */
  lemma {:induction false} ThousandsRoundTrip(n: nat)
    ensures var t := RemoveChar(Thousands(n), ',');
            IsDecimal(t) && ParseNat(t) == n
  {
    GroupDigitsUngroup(NatToString(n));
  }

  /** The worked example: twelve thousand three hundred forty-five. */
  lemma {:induction false} ThousandsExample()
    ensures Thousands(12345) == "12,345"
  {
    assert NatToString(12345) == "12345" by {
      assert NatToString(1) == "1";
      assert NatToString(12) == NatToString(1) + "2";
      assert NatToString(123) == NatToString(12) + "3";
      assert NatToString(1234) == NatToString(123) + "4";
    }
  }
}
