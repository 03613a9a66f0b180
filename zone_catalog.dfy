/**
 * The zone catalog of the zone service, as values: the grouping of the
 * dataset by (area manager, fare code) that pandas' `groupby(...).size()`
 * performs, the zone entries built from the groups, the popularity
 * fallback, the city heuristic table, the postcode guess, postcode
 * normalisation and the search predicate.
 */
module ZoneCatalog {
  import opened Wrappers
  import opened Text
  import opened Sorting
  import opened Dataset

  // ---------------------------------------------------------------------
  // Grouping

  /** One group of the dataset: an (area manager, fare code) pair and its number of rows. */
  datatype Group = Group(areaManagerId: int, fareCalculationCode: string, count: int)

  /** The order pandas sorts group keys in: by area manager, then by fare code. */
  predicate KeyLess(a1: int, c1: string, a2: int, c2: string)
  {
    a1 < a2 || (a1 == a2 && StrLess(c1, c2))
  }

  predicate GroupLess(g: Group, h: Group)
  {
    KeyLess(g.areaManagerId, g.fareCalculationCode, h.areaManagerId, h.fareCalculationCode)
  }

  predicate StrictlySorted(gs: seq<Group>)
  {
    forall i, j :: 0 <= i < j < |gs| ==> GroupLess(gs[i], gs[j])
  }

  /** Counts one more row of key (a, c) in the sorted groups `gs`. */
  function AddRow(gs: seq<Group>, a: int, c: string): (r: seq<Group>)
    ensures r != []
  {
    if gs == [] then [Group(a, c, 1)]
    else if gs[0].areaManagerId == a && gs[0].fareCalculationCode == c then
      [gs[0].(count := gs[0].count + 1)] + gs[1..]
    else if KeyLess(a, c, gs[0].areaManagerId, gs[0].fareCalculationCode) then [Group(a, c, 1)] + gs
    else [gs[0]] + AddRow(gs[1..], a, c)
  }

  /**
   * `groupby(['AreaManagerId', 'FareCalculationCode']).size()`: one group
   * per key that occurs, in key order, with its row count. A row without
   * fare code belongs to no group.
   */
  function Groups(rows: seq<Row>): seq<Group>
  {
    if rows == [] then []
    else
      var last := rows[|rows| - 1];
      var init := Groups(rows[..|rows| - 1]);
      if last.fareCalculationCode.None? then init
      else AddRow(init, last.areaManagerId, last.fareCalculationCode.value)
  }

  /** The count of key (a, c) in `gs`, 0 when there is no such group. */
  function CountOf(gs: seq<Group>, a: int, c: string): int
  {
    if gs == [] then 0
    else if gs[0].areaManagerId == a && gs[0].fareCalculationCode == c then gs[0].count
    else CountOf(gs[1..], a, c)
  }

  lemma KeyLessIrreflexive(a: int, c: string)
    ensures !KeyLess(a, c, a, c)
  {
    StrLessIrreflexive(c);
  }

  lemma KeyLessTransitive(a1: int, c1: string, a2: int, c2: string, a3: int, c3: string)
    requires KeyLess(a1, c1, a2, c2) && KeyLess(a2, c2, a3, c3)
    ensures KeyLess(a1, c1, a3, c3)
  {
    if a1 == a2 && a2 == a3 {
      StrLessTransitive(c1, c2, c3);
    }
  }

  lemma KeyLessTotal(a1: int, c1: string, a2: int, c2: string)
    requires a1 != a2 || c1 != c2
    ensures KeyLess(a1, c1, a2, c2) || KeyLess(a2, c2, a1, c1)
  {
    if a1 == a2 {
      StrLessTotal(c1, c2);
    }
  }

  predicate Below(b: Group, gs: seq<Group>)
  {
    forall i :: 0 <= i < |gs| ==> GroupLess(b, gs[i])
  }

  lemma {:induction false} AddRowBelow(gs: seq<Group>, a: int, c: string, b: Group)
    requires Below(b, gs) && KeyLess(b.areaManagerId, b.fareCalculationCode, a, c)
    ensures Below(b, AddRow(gs, a, c))
  {
    if gs != [] && !(gs[0].areaManagerId == a && gs[0].fareCalculationCode == c)
       && !KeyLess(a, c, gs[0].areaManagerId, gs[0].fareCalculationCode) {
      AddRowBelow(gs[1..], a, c, b);
    }
  }

  lemma {:induction false} AddRowSorted(gs: seq<Group>, a: int, c: string)
    requires StrictlySorted(gs)
    ensures StrictlySorted(AddRow(gs, a, c))
  {
    if gs == [] {
    } else if gs[0].areaManagerId == a && gs[0].fareCalculationCode == c {
    } else if KeyLess(a, c, gs[0].areaManagerId, gs[0].fareCalculationCode) {
      var r := AddRow(gs, a, c);
      forall j | 0 < j < |r| ensures GroupLess(r[0], r[j]) {
        if j > 1 {
          KeyLessTransitive(a, c, gs[0].areaManagerId, gs[0].fareCalculationCode,
                            r[j].areaManagerId, r[j].fareCalculationCode);
        }
      }
    } else {
      KeyLessTotal(a, c, gs[0].areaManagerId, gs[0].fareCalculationCode);
      AddRowSorted(gs[1..], a, c);
      AddRowBelow(gs[1..], a, c, gs[0]);
    }
  }

  lemma {:induction false} CountOfBelowKey(gs: seq<Group>, a: int, c: string)
    requires forall i :: 0 <= i < |gs| ==> KeyLess(a, c, gs[i].areaManagerId, gs[i].fareCalculationCode)
    ensures CountOf(gs, a, c) == 0
  {
    if gs != [] {
      KeyLessIrreflexive(a, c);
      CountOfBelowKey(gs[1..], a, c);
    }
  }

  /** Counting a row of key (a, c) adds one to that key's count and leaves every other count alone. */
  lemma {:induction false} AddRowCount(gs: seq<Group>, a: int, c: string, a2: int, c2: string)
    requires StrictlySorted(gs)
    ensures CountOf(AddRow(gs, a, c), a2, c2) == CountOf(gs, a2, c2) + (if a2 == a && c2 == c then 1 else 0)
  {
    if gs == [] {
    } else if gs[0].areaManagerId == a && gs[0].fareCalculationCode == c {
      assert AddRow(gs, a, c)[1..] == gs[1..];
    } else if KeyLess(a, c, gs[0].areaManagerId, gs[0].fareCalculationCode) {
      assert AddRow(gs, a, c)[1..] == gs;
      if a2 == a && c2 == c {
        forall i | 0 <= i < |gs| ensures KeyLess(a, c, gs[i].areaManagerId, gs[i].fareCalculationCode) {
          if i > 0 {
            KeyLessTransitive(a, c, gs[0].areaManagerId, gs[0].fareCalculationCode,
                              gs[i].areaManagerId, gs[i].fareCalculationCode);
          }
        }
        CountOfBelowKey(gs, a, c);
      }
    } else {
      assert AddRow(gs, a, c)[1..] == AddRow(gs[1..], a, c);
      AddRowCount(gs[1..], a, c, a2, c2);
    }
  }

  lemma {:induction false} AddRowPositive(gs: seq<Group>, a: int, c: string)
    requires forall i :: 0 <= i < |gs| ==> gs[i].count > 0
    ensures forall i :: 0 <= i < |AddRow(gs, a, c)| ==> AddRow(gs, a, c)[i].count > 0
  {
    if gs != [] && !(gs[0].areaManagerId == a && gs[0].fareCalculationCode == c)
       && !KeyLess(a, c, gs[0].areaManagerId, gs[0].fareCalculationCode) {
      AddRowPositive(gs[1..], a, c);
    }
  }

  /**
   * The groups are strictly sorted by key, each counts at least one row,
   * and the count of every key is the number of rows of that zone.
   */
  lemma {:induction false} GroupsSpec(rows: seq<Row>)
    ensures StrictlySorted(Groups(rows))
    ensures forall i :: 0 <= i < |Groups(rows)| ==> Groups(rows)[i].count > 0
    ensures forall a, c :: CountOf(Groups(rows), a, c) == |ZoneRows(rows, a, c)|
  {
    if rows != [] {
      var init := rows[..|rows| - 1];
      var last := rows[|rows| - 1];
      assert rows == init + [last];
      GroupsSpec(init);
      forall a, c ensures CountOf(Groups(rows), a, c) == |ZoneRows(rows, a, c)| {
        ZoneRowsAppend(init, last, a, c);
        if last.fareCalculationCode.Some? {
          AddRowCount(Groups(init), last.areaManagerId, last.fareCalculationCode.value, a, c);
        }
      }
      if last.fareCalculationCode.Some? {
        AddRowSorted(Groups(init), last.areaManagerId, last.fareCalculationCode.value);
        AddRowPositive(Groups(init), last.areaManagerId, last.fareCalculationCode.value);
      }
    }
  }

  /** In strictly sorted groups a group's key finds that group's own count. */
  lemma {:induction false} CountOfAt(gs: seq<Group>, i: nat)
    requires StrictlySorted(gs) && i < |gs|
    ensures CountOf(gs, gs[i].areaManagerId, gs[i].fareCalculationCode) == gs[i].count
  {
    if i > 0 {
      assert GroupLess(gs[0], gs[i]);
      KeyLessIrreflexive(gs[i].areaManagerId, gs[i].fareCalculationCode);
      CountOfAt(gs[1..], i - 1);
    }
  }

  /** A key with a nonzero count has a group. */
  lemma {:induction false} CountOfPresent(gs: seq<Group>, a: int, c: string) returns (i: nat)
    requires CountOf(gs, a, c) != 0
    ensures i < |gs| && gs[i].areaManagerId == a && gs[i].fareCalculationCode == c
  {
    if gs[0].areaManagerId == a && gs[0].fareCalculationCode == c {
      i := 0;
    } else {
      var j := CountOfPresent(gs[1..], a, c);
      i := j + 1;
    }
  }

  // ---------------------------------------------------------------------
  // Catalog entries

  /** How the resolver arrived at a zone; `Automatic` is the tag reported when an entry has none. */
  datatype DetectionMethod = CityHeuristics | MostPopular | FallbackMostPopular | ErrorFallback | Automatic

  /** A catalog entry; entries of the catalog itself carry no detection tag, copies handed out do. */
  datatype ZoneInfo = ZoneInfo(
    areaManagerId: int,
    fareCalculationCode: string,
    zoneId: string,
    zoneNaam: string,
    recordCount: int,
    detectionMethod: Option<DetectionMethod>)

  /** The text `str()` gives for a missing fare code; such groups are skipped. */
  const NanCode: string := "nan"

  function ZoneName(areaId: int, fareCode: string): string
  {
    "Zone " + IntToString(areaId) + " - " + fareCode
  }

  /** The catalog entry of a group. */
  function ZoneOf(g: Group): ZoneInfo
  {
    ZoneInfo(g.areaManagerId, g.fareCalculationCode, ZoneKey(g.areaManagerId, g.fareCalculationCode),
             ZoneName(g.areaManagerId, g.fareCalculationCode), g.count, None)
  }

  /** The entries of the groups, in group order, without the "nan" code. */
  function ZonesOf(gs: seq<Group>): seq<ZoneInfo>
  {
    if gs == [] then []
    else
      var last := gs[|gs| - 1];
      ZonesOf(gs[..|gs| - 1]) + (if last.fareCalculationCode == NanCode then [] else [ZoneOf(last)])
  }

  /** The catalog in insertion order; empty when the dataset could not be loaded. */
  function Catalog(data: Option<seq<Row>>): seq<ZoneInfo>
  {
    if data.None? then [] else ZonesOf(Groups(data.value))
  }

  function Ids(zs: seq<ZoneInfo>): (ids: seq<string>)
    ensures |ids| == |zs| && forall i :: 0 <= i < |zs| ==> ids[i] == zs[i].zoneId
  {
    seq(|zs|, i requires 0 <= i < |zs| => zs[i].zoneId)
  }

  predicate ZoneLess(y: ZoneInfo, z: ZoneInfo)
  {
    KeyLess(y.areaManagerId, y.fareCalculationCode, z.areaManagerId, z.fareCalculationCode)
  }

  lemma {:induction false} ZonesOfMembers(gs: seq<Group>)
    ensures forall z :: z in ZonesOf(gs) <==>
      exists j :: 0 <= j < |gs| && gs[j].fareCalculationCode != NanCode && z == ZoneOf(gs[j])
  {
    if gs != [] {
      var init := gs[..|gs| - 1];
      ZonesOfMembers(init);
      assert forall j :: 0 <= j < |init| ==> init[j] == gs[j];
    }
  }

  lemma {:induction false} ZonesOfSorted(gs: seq<Group>)
    requires StrictlySorted(gs)
    ensures forall i, j :: 0 <= i < j < |ZonesOf(gs)| ==> ZoneLess(ZonesOf(gs)[i], ZonesOf(gs)[j])
  {
    if gs != [] {
      var init := gs[..|gs| - 1];
      ZonesOfSorted(init);
      ZonesOfMembers(init);
      var zs := ZonesOf(gs);
      forall i | 0 <= i < |ZonesOf(init)|
        ensures ZoneLess(ZonesOf(init)[i], ZoneOf(gs[|gs| - 1]))
      {
        assert ZonesOf(init)[i] in ZonesOf(init);
      }
    }
  }

  /**
   * The catalog has exactly one entry for every (area manager, fare code)
   * pair that has rows and whose code is not "nan"; each entry's key is
   * "{area}_{code}", its name "Zone {area} - {code}", its count the
   * number of rows of the zone, and no two entries share a key.
   */
  lemma CatalogSpec(rows: seq<Row>)
    ensures var cat := Catalog(Some(rows));
      && (forall z :: z in cat ==>
            && z.zoneId == ZoneKey(z.areaManagerId, z.fareCalculationCode)
            && z.zoneNaam == ZoneName(z.areaManagerId, z.fareCalculationCode)
            && z.fareCalculationCode != NanCode
            && z.recordCount == |ZoneRows(rows, z.areaManagerId, z.fareCalculationCode)| > 0
            && z.detectionMethod.None?)
      && (forall a, c :: (exists z :: z in cat && z.areaManagerId == a && z.fareCalculationCode == c)
            <==> c != NanCode && |ZoneRows(rows, a, c)| > 0)
      && (forall i, j :: 0 <= i < j < |cat| ==> cat[i].zoneId != cat[j].zoneId)
  {
    var gs := Groups(rows);
    var cat := ZonesOf(gs);
    GroupsSpec(rows);
    ZonesOfMembers(gs);
    ZonesOfSorted(gs);
    forall z | z in cat
      ensures z.recordCount == |ZoneRows(rows, z.areaManagerId, z.fareCalculationCode)| > 0
    {
      var j :| 0 <= j < |gs| && gs[j].fareCalculationCode != NanCode && z == ZoneOf(gs[j]);
      CountOfAt(gs, j);
    }
    forall a, c | c != NanCode && |ZoneRows(rows, a, c)| > 0
      ensures exists z :: z in cat && z.areaManagerId == a && z.fareCalculationCode == c
    {
      var j := CountOfPresent(gs, a, c);
      assert ZoneOf(gs[j]) in cat;
    }
    forall i, j | 0 <= i < j < |cat| ensures cat[i].zoneId != cat[j].zoneId {
      assert ZoneLess(cat[i], cat[j]);
      assert cat[i] in cat && cat[j] in cat;
      KeyLessIrreflexive(cat[i].areaManagerId, cat[i].fareCalculationCode);
      if cat[i].zoneId == cat[j].zoneId {
        ZoneKeyInjective(cat[i].areaManagerId, cat[i].fareCalculationCode,
                         cat[j].areaManagerId, cat[j].fareCalculationCode);
      }
    }
  }

  // ---------------------------------------------------------------------
  // The popularity fallback

  function NegCount(z: ZoneInfo): int { -z.recordCount }

  function Tagged(z: ZoneInfo, m: DetectionMethod): ZoneInfo
  {
    z.(detectionMethod := Some(m))
  }

  /**
   * The most popular entry, tagged `FallbackMostPopular`: the head of the
   * entries stably sorted by descending count. None for no entries.
   */
  function Fallback(items: seq<ZoneInfo>): Option<ZoneInfo>
  {
    if items == [] then None else Some(Tagged(SortBy(items, NegCount)[0], FallbackMostPopular))
  }

  /**
   * The fallback exists exactly when there are entries; it is a tagged copy
   * of an entry of maximal count, the first such entry in insertion order.
   */
  lemma FallbackSpec(items: seq<ZoneInfo>) returns (n: nat)
    requires items != []
    ensures n < |items| && Fallback(items) == Some(Tagged(items[n], FallbackMostPopular))
    ensures forall i :: 0 <= i < |items| ==> items[i].recordCount <= items[n].recordCount
    ensures forall i :: 0 <= i < n ==> items[i].recordCount < items[n].recordCount
  {
    n := SortByHead(items, NegCount);
  }

  // ---------------------------------------------------------------------
  // The city heuristic

  /** An area manager and fare codes to try for it, in order. */
  datatype Pattern = Pattern(areaManagerId: int, fareCodes: seq<string>)

  /** The fixed table of known cities, by lower-case municipality name; None for any other name. */
  function CityPatterns(gemeente: string): Option<seq<Pattern>>
  {
    if gemeente == "amsterdam" then
      Some([Pattern(14, ["TAR01", "TAR02", "TAR03", "TAR04"]), Pattern(14, ["14_DAGTAR", "PRTAR01"])])
    else if gemeente == "utrecht" then
      Some([Pattern(34, ["34_TAR01", "34_TAR02"]), Pattern(34, ["34_DAG01", "34_DAG02"])])
    else if gemeente == "rotterdam" then
      Some([Pattern(17, ["TAR01", "GAR01"]), Pattern(5, ["PR01"])])
    else if gemeente == "den haag" then
      Some([Pattern(10, ["TAR01", "CPL01"]), Pattern(3, ["PR01"])])
    else None
  }

  function PatternKeys(p: Pattern): (keys: seq<string>)
    ensures |keys| == |p.fareCodes|
    ensures forall i :: 0 <= i < |keys| ==> keys[i] == ZoneKey(p.areaManagerId, p.fareCodes[i])
  {
    seq(|p.fareCodes|, i requires 0 <= i < |p.fareCodes| => ZoneKey(p.areaManagerId, p.fareCodes[i]))
  }

  /** The candidate zone keys of a city, in the order the heuristic tries them. */
  function Candidates(pats: seq<Pattern>): seq<string>
  {
    if pats == [] then [] else PatternKeys(pats[0]) + Candidates(pats[1..])
  }

  /** The first of `keys` present in `zones`. */
  function FirstPresent(keys: seq<string>, zones: map<string, ZoneInfo>): (r: Option<string>)
    ensures r.Some? ==> r.value in keys && r.value in zones
  {
    if keys == [] then None
    else if keys[0] in zones then Some(keys[0])
    else FirstPresent(keys[1..], zones)
  }

  /** `FirstPresent` finds nothing exactly when no key is present, and otherwise the first present key. */
  lemma {:induction false} FirstPresentSpec(keys: seq<string>, zones: map<string, ZoneInfo>) returns (n: int)
    ensures FirstPresent(keys, zones).None? <==> forall i :: 0 <= i < |keys| ==> keys[i] !in zones
    ensures FirstPresent(keys, zones).Some? ==>
      0 <= n < |keys| && keys[n] == FirstPresent(keys, zones).value && forall i :: 0 <= i < n ==> keys[i] !in zones
  {
    if keys == [] {
      n := -1;
    } else if keys[0] in zones {
      n := 0;
    } else {
      var m := FirstPresentSpec(keys[1..], zones);
      n := m + 1;
      assert forall i :: 1 <= i < |keys| ==> keys[i] == keys[1..][i - 1];
    }
  }

  // ---------------------------------------------------------------------
  // The postcode guess and normalisation

  /** The city a four-digit postcode prefix lies in; every other number is "Nederland". */
  function GuessCity(pc: int): string
  {
    if 1000 <= pc <= 1299 then "Amsterdam"
    else if 3000 <= pc <= 3299 then "Rotterdam"
    else if 3500 <= pc <= 3599 then "Utrecht"
    else if 2500 <= pc <= 2699 then "Den Haag"
    else "Nederland"
  }

  /** The guess names each city on exactly its range of prefixes, and "Nederland" on all others. */
  lemma GuessCityRanges(pc: int)
    ensures GuessCity(pc) == "Amsterdam" <==> 1000 <= pc <= 1299
    ensures GuessCity(pc) == "Rotterdam" <==> 3000 <= pc <= 3299
    ensures GuessCity(pc) == "Utrecht" <==> 3500 <= pc <= 3599
    ensures GuessCity(pc) == "Den Haag" <==> 2500 <= pc <= 2699
    ensures GuessCity(pc) == "Nederland" <==>
      !(1000 <= pc <= 1299 || 3000 <= pc <= 3299 || 3500 <= pc <= 3599 || 2500 <= pc <= 2699)
  {
  }

  /** The guess on the text of the prefix; None where `int()` raises. */
  function GuessCityFromPostcode(postcodeCijfers: string): (r: Option<string>)
    ensures r.None? <==> ParseInt(postcodeCijfers).None?
  {
    match ParseInt(postcodeCijfers)
    case None => None
    case Some(pc) => Some(GuessCity(pc))
  }

  /** Every guessed city other than "Nederland" is, lower-cased, a city of the heuristic table. */
  lemma GuessedCityHasPatterns(pc: int)
    ensures CityPatterns(Lower(GuessCity(pc))).Some? <==> GuessCity(pc) != "Nederland"
  {
    var city := GuessCity(pc);
    if city == "Amsterdam" {
      assert Lower(city) == "amsterdam";
    } else if city == "Rotterdam" {
      assert Lower(city) == "rotterdam";
    } else if city == "Utrecht" {
      assert Lower(city) == "utrecht";
    } else if city == "Den Haag" {
      assert Lower(city) == "den haag";
    } else {
      assert Lower(city) == "nederland";
    }
  }

  /** `postcode.replace(" ", "").upper()`. */
  function Normalize(postcode: string): (r: string)
    ensures forall i :: 0 <= i < |r| ==> r[i] != ' ' && !('a' <= r[i] <= 'z')
  {
    Upper(RemoveSpaces(postcode))
  }

  /** Normalising twice is normalising once. */
  lemma NormalizeIdempotent(postcode: string)
    ensures Normalize(Normalize(postcode)) == Normalize(postcode)
  {
    var n := Normalize(postcode);
    RemoveSpacesNoop(n);
    assert Upper(n) == n;
  }

  /** The first four characters, `s[:4]`. */
  function Prefix4(s: string): (r: string)
    ensures |r| == (if |s| < 4 then |s| else 4) && r == s[..|r|]
  {
    if |s| < 4 then s else s[..4]
  }

  // ---------------------------------------------------------------------
  // Search

  /** A lower-case term matches a zone that holds it in its lower-cased name or code, or in its area number. */
  predicate MatchesTerm(z: ZoneInfo, term: string)
  {
    || Contains(Lower(z.zoneNaam), term)
    || Contains(Lower(z.fareCalculationCode), term)
    || Contains(IntToString(z.areaManagerId), term)
  }

  /** The entries matching `term`, in their order. */
  function SearchResults(items: seq<ZoneInfo>, term: string): seq<ZoneInfo>
  {
    if items == [] then []
    else
      var last := items[|items| - 1];
      SearchResults(items[..|items| - 1], term) + (if MatchesTerm(last, term) then [last] else [])
  }

  lemma {:induction false} SearchResultsMembers(items: seq<ZoneInfo>, term: string)
    ensures forall z :: z in SearchResults(items, term) <==> z in items && MatchesTerm(z, term)
  {
    if items != [] {
      var init := items[..|items| - 1];
      SearchResultsMembers(init, term);
      assert items == init + [items[|items| - 1]];
    }
  }

  /**
   * Search does not match city names: the Utrecht zone "34_TAR01" of the
   * heuristic table, named "Zone 34 - 34_TAR01", is not found by "utrecht".
   */
  lemma {:induction false} SearchIgnoresCityNames(count: int)
    ensures !MatchesTerm(ZoneOf(Group(34, "34_TAR01", count)), "utrecht")
  {
    var z := ZoneOf(Group(34, "34_TAR01", count));
    assert IntToString(34) == "34";
    assert z.zoneNaam == "Zone 34 - 34_TAR01";
    AbsentFirstChar(Lower(z.zoneNaam), "utrecht");
    AbsentFirstChar(Lower(z.fareCalculationCode), "utrecht");
    AbsentFirstChar(IntToString(z.areaManagerId), "utrecht");
  }

  // ---------------------------------------------------------------------
  // Resolution, on the catalog as a map and as its entries in order

  /** The heuristic's answer: a copy of the catalog entry of the first candidate key present, tagged. */
  function HeuristicMatch(gemeente: string, zones: map<string, ZoneInfo>): Option<ZoneInfo>
  {
    match CityPatterns(gemeente)
    case None => None
    case Some(pats) =>
      match FirstPresent(Candidates(pats), zones)
      case None => None
      case Some(k) => Some(Tagged(zones[k], CityHeuristics))
  }

  /**
   * The heuristic finds nothing for a city outside the table or one none
   * of whose candidates is in the catalog; otherwise it answers the first
   * candidate, in table order, that is.
   */
  lemma HeuristicMatchSpec(gemeente: string, zones: map<string, ZoneInfo>) returns (n: int)
    ensures HeuristicMatch(gemeente, zones).None? <==>
      CityPatterns(gemeente).None? ||
      forall i :: 0 <= i < |Candidates(CityPatterns(gemeente).value)| ==> Candidates(CityPatterns(gemeente).value)[i] !in zones
    ensures HeuristicMatch(gemeente, zones).Some? ==>
      var keys := Candidates(CityPatterns(gemeente).value);
      && 0 <= n < |keys| && keys[n] in zones
      && HeuristicMatch(gemeente, zones) == Some(Tagged(zones[keys[n]], CityHeuristics))
      && forall i :: 0 <= i < n ==> keys[i] !in zones
  {
    n := -1;
    if CityPatterns(gemeente).Some? {
      var keys := Candidates(CityPatterns(gemeente).value);
      n := FirstPresentSpec(keys, zones);
      match FirstPresent(keys, zones)
      case None =>
      case Some(k) =>
        assert HeuristicMatch(gemeente, zones) == Some(Tagged(zones[k], CityHeuristics));
    }
  }

  lemma {:induction false} CandidatesFrom(pats: seq<Pattern>, j: nat)
    requires j < |pats|
    ensures Candidates(pats[j..]) == PatternKeys(pats[j]) + Candidates(pats[j + 1..])
  {
    assert pats[j..][0] == pats[j] && pats[j..][1..] == pats[j + 1..];
  }

  /**
   * The zone a postcode resolves to on a cache miss: the heuristic's
   * answer, or else the most popular entry tagged `MostPopular`.
   */
  function Resolve(gemeente: string, zones: map<string, ZoneInfo>, items: seq<ZoneInfo>): Option<ZoneInfo>
  {
    match HeuristicMatch(gemeente, zones)
    case Some(z) => Some(z)
    case None =>
      match Fallback(items)
      case Some(z) => Some(Tagged(z, MostPopular))
      case None => None
  }

  /** Taking one more group appends its entry, unless its code is "nan". */
  lemma ZonesOfStep(gs: seq<Group>, i: nat)
    requires i < |gs|
    ensures ZonesOf(gs[..i + 1])
      == ZonesOf(gs[..i]) + (if gs[i].fareCalculationCode == NanCode then [] else [ZoneOf(gs[i])])
  {
    assert gs[..i + 1][..i] == gs[..i];
  }

  /** A group's key is new to the entries built from the groups before it. */
  lemma NewKeyFresh(gs: seq<Group>, i: nat)
    requires StrictlySorted(gs) && i < |gs|
    ensures forall z :: z in ZonesOf(gs[..i]) ==> z.zoneId != ZoneKey(gs[i].areaManagerId, gs[i].fareCalculationCode)
  {
    var init := gs[..i];
    ZonesOfMembers(init);
    forall z | z in ZonesOf(init)
      ensures z.zoneId != ZoneKey(gs[i].areaManagerId, gs[i].fareCalculationCode)
    {
      var j :| 0 <= j < |init| && init[j].fareCalculationCode != NanCode && z == ZoneOf(init[j]);
      assert GroupLess(gs[j], gs[i]);
      KeyLessIrreflexive(gs[i].areaManagerId, gs[i].fareCalculationCode);
      if z.zoneId == ZoneKey(gs[i].areaManagerId, gs[i].fareCalculationCode) {
        ZoneKeyInjective(gs[j].areaManagerId, gs[j].fareCalculationCode, gs[i].areaManagerId, gs[i].fareCalculationCode);
      }
    }
  }

  /**
   * The listing by popularity holds every entry once (a permutation), in
   * non-increasing count, entries of equal count in insertion order.
   */
  lemma ListingSpec(items: seq<ZoneInfo>)
    ensures multiset(SortBy(items, NegCount)) == multiset(items)
    ensures forall i, j :: 0 <= i < j < |items| ==>
      SortBy(items, NegCount)[i].recordCount >= SortBy(items, NegCount)[j].recordCount
    ensures forall k :: KeyFilter(SortBy(items, NegCount), NegCount, k) == KeyFilter(items, NegCount, k)
  {
    SortByPermutes(items, NegCount);
    SortBySorted(items, NegCount);
    forall k ensures KeyFilter(SortBy(items, NegCount), NegCount, k) == KeyFilter(items, NegCount, k) {
      SortByStable(items, NegCount, k);
    }
  }
}

