/**
 * The NPR zone service: the zone catalog kept as a dictionary in insertion
 * order, the memo cache of resolved postcodes, and the resolution of an
 * address to a zone with its fallbacks.
 */
module NprZone {
  import opened Wrappers
  import opened Text
  import opened Sorting
  import opened Dataset
  import opened ZoneCatalog

  /** An address as the BAG lookup reports it; a field the register leaves empty is None. */
  datatype Address = Address(straatnaam: Option<string>, woonplaats: Option<string>, gemeente: Option<string>)

  /** The zone handed back for an address, with the address used and how the zone was found. */
  datatype ZoneResult = ZoneResult(
    zoneId: string,
    zoneNaam: string,
    areaManagerId: int,
    fareCalculationCode: string,
    adres: Address,
    detectionMethod: DetectionMethod)

  /** The result reported for zone `z` found for address `adres`; an untagged zone reads as `Automatic`. */
  function ResultFor(z: ZoneInfo, adres: Address): ZoneResult
  {
    var tag := if z.detectionMethod.Some? then z.detectionMethod.value else Automatic;
    ZoneResult(z.zoneId, z.zoneNaam, z.areaManagerId, z.fareCalculationCode, adres, tag)
  }

  /** The listing of the catalog: the entries by popularity and their number. */
  datatype AvailableZones = AvailableZones(zones: seq<ZoneInfo>, total: int)

  /** The address reported when resolution fails. */
  const UnknownAddress: Address := Address(Some("Onbekend"), Some("Onbekend"), Some("onbekend"))

  /** The stand-in address built from a guessed city when the BAG lookup gives nothing. */
  function GuessedAddress(city: string): Address
  {
    Address(Some("Onbekend"), Some(city), Some(Lower(city)))
  }

  /** The memo-cache key `f"{postcode_clean}_{gemeente}"`. */
  function CacheKey(postcodeClean: string, gemeente: string): string
  {
    postcodeClean + "_" + gemeente
  }

  /** The values of a dictionary in the order of its keys `order`. */
  function ItemsOf(order: seq<string>, zones: map<string, ZoneInfo>): seq<ZoneInfo>
  {
    if order == [] then []
    else
      var k := order[|order| - 1];
      ItemsOf(order[..|order| - 1], zones) + (if k in zones then [zones[k]] else [])
  }

  lemma {:induction false} ItemsOfMembers(order: seq<string>, zones: map<string, ZoneInfo>)
    ensures forall z :: z in ItemsOf(order, zones) <==>
      exists i :: 0 <= i < |order| && order[i] in zones && zones[order[i]] == z
  {
    if order != [] {
      var init := order[..|order| - 1];
      ItemsOfMembers(init, zones);
      assert forall i :: 0 <= i < |init| ==> init[i] == order[i];
    }
  }

  /** A dictionary holding every entry of `zs` under its id lists `zs` in the order of the ids. */
  lemma {:induction false} ItemsOfIds(zs: seq<ZoneInfo>, zones: map<string, ZoneInfo>)
    requires forall z :: z in zs ==> z.zoneId in zones && zones[z.zoneId] == z
    ensures ItemsOf(Ids(zs), zones) == zs
  {
    if zs != [] {
      var init := zs[..|zs| - 1];
      assert Ids(zs)[..|zs| - 1] == Ids(init);
      assert forall z :: z in init ==> z in zs;
      ItemsOfIds(init, zones);
      assert zs == init + [zs[|zs| - 1]];
    }
  }

  /** A dictionary in insertion order whose keys are pairwise distinct and whose entries are filed under their own untagged id. */
  ghost predicate WellFiled(order: seq<string>, zones: map<string, ZoneInfo>)
  {
    && (forall k :: k in zones <==> k in order)
    && (forall i, j :: 0 <= i < j < |order| ==> order[i] != order[j])
    && (forall k :: k in zones ==> zones[k].zoneId == k && zones[k].detectionMethod.None?)
  }

  /** The dictionary `order`/`zones` holds exactly the entries `zs`, inserted in their order. */
  ghost predicate Filed(order: seq<string>, zones: map<string, ZoneInfo>, zs: seq<ZoneInfo>)
  {
    && order == Ids(zs)
    && (forall k :: k in zones <==> k in order)
    && (forall z :: z in zs ==> z.zoneId in zones && zones[z.zoneId] == z)
  }

  lemma FiledSnoc(order: seq<string>, zones: map<string, ZoneInfo>, zs: seq<ZoneInfo>, z: ZoneInfo)
    requires Filed(order, zones, zs)
    requires forall y :: y in zs ==> y.zoneId != z.zoneId
    ensures Filed(order + [z.zoneId], zones[z.zoneId := z], zs + [z])
  {
    assert Ids(zs + [z]) == Ids(zs) + [z.zoneId];
  }

  /** Filing the catalog of `rows` gives a well-filed dictionary whose values are the catalog. */
  lemma FiledCatalog(rows: seq<Row>, order: seq<string>, zones: map<string, ZoneInfo>)
    requires Filed(order, zones, Catalog(Some(rows)))
    ensures WellFiled(order, zones) && ItemsOf(order, zones) == Catalog(Some(rows))
  {
    var cat := Catalog(Some(rows));
    CatalogSpec(rows);
    ItemsOfIds(cat, zones);
    forall k | k in zones ensures zones[k].zoneId == k && zones[k].detectionMethod.None? {
      var i :| 0 <= i < |order| && order[i] == k;
      assert cat[i] in cat;
    }
  }

  lemma {:induction false} FirstPresentAt(keys: seq<string>, k: nat, rest: seq<string>, zones: map<string, ZoneInfo>)
    ensures k < |keys| ==> (FirstPresent(keys[k..] + rest, zones) ==
      if keys[k] in zones then Some(keys[k]) else FirstPresent(keys[k + 1..] + rest, zones))
    ensures k == |keys| ==> FirstPresent(keys[k..] + rest, zones) == FirstPresent(rest, zones)
  {
    if k < |keys| {
      assert (keys[k..] + rest)[0] == keys[k];
      assert (keys[k..] + rest)[1..] == keys[k + 1..] + rest;
    } else if k == |keys| {
      assert keys[k..] + rest == rest;
    }
  }

  lemma ItemsOfSnoc(order: seq<string>, i: nat, zones: map<string, ZoneInfo>)
    requires i < |order| && order[i] in zones
    ensures ItemsOf(order[..i + 1], zones) == ItemsOf(order[..i], zones) + [zones[order[i]]]
  {
    assert order[..i + 1][..i] == order[..i];
  }

  class NprZoneService {
    /** The catalog, by zone key. */
    var availableZones: map<string, ZoneInfo>
    /** The keys of the catalog in insertion order (a Python dictionary's order). */
    var zoneOrder: seq<string>
    /** Resolved zones by `CacheKey`. */
    var postcodeToZoneCache: map<string, ZoneInfo>

    /** The catalog's keys are its order's keys, each once, each entry filed under its own id and untagged. */
    ghost predicate CatalogValid()
      reads this
    {
      WellFiled(zoneOrder, availableZones)
    }

    /** A resolved zone: a copy of a catalog entry tagged by the heuristic or by popularity. */
    ghost predicate IsResolvedCopy(z: ZoneInfo)
      reads this
    {
      && z.zoneId in availableZones
      && (z.detectionMethod == Some(CityHeuristics) || z.detectionMethod == Some(MostPopular))
      && z.(detectionMethod := None) == availableZones[z.zoneId]
    }

    ghost predicate Valid()
      reads this
    {
      CatalogValid() && forall k :: k in postcodeToZoneCache ==> IsResolvedCopy(postcodeToZoneCache[k])
    }

    /** `available_zones.values()`, in insertion order. */
    function Items(): seq<ZoneInfo>
      reads this
    {
      ItemsOf(zoneOrder, availableZones)
    }

    /** The catalog of `data` and an empty cache. */
    constructor (data: Option<seq<Row>>)
      ensures Valid() && Items() == Catalog(data) && postcodeToZoneCache == map[]
    {
      availableZones := map[];
      zoneOrder := [];
      postcodeToZoneCache := map[];
      new;
      LoadAllNprZones(data);
    }

    /**
     * Rebuilds the catalog from the groups of `data`: one entry per group
     * whose code is not "nan", inserted in group order. No data gives an
     * empty catalog.
     */
    method LoadAllNprZones(data: Option<seq<Row>>)
      modifies this
      ensures CatalogValid() && Items() == Catalog(data)
      ensures postcodeToZoneCache == old(postcodeToZoneCache)
    {
      availableZones := map[];
      zoneOrder := [];
      if data.None? {
        return;
      }
      var zoneGroups := Groups(data.value);
      GroupsSpec(data.value);
      for i := 0 to |zoneGroups|
        invariant Filed(zoneOrder, availableZones, ZonesOf(zoneGroups[..i]))
        invariant postcodeToZoneCache == old(postcodeToZoneCache)
      {
        var row := zoneGroups[i];
        ZonesOfStep(zoneGroups, i);
        var areaId := row.areaManagerId;
        var fareCode := row.fareCalculationCode;
        if fareCode != NanCode {
          var zoneKey := ZoneKey(areaId, fareCode);
          var zoneInfo := ZoneInfo(areaId, fareCode, zoneKey, ZoneName(areaId, fareCode), row.count, None);
          NewKeyFresh(zoneGroups, i);
          FiledSnoc(zoneOrder, availableZones, ZonesOf(zoneGroups[..i]), zoneInfo);
          availableZones := availableZones[zoneKey := zoneInfo];
          zoneOrder := zoneOrder + [zoneKey];
        }
      }
      assert zoneGroups[..|zoneGroups|] == zoneGroups;
      FiledCatalog(data.value, zoneOrder, availableZones);
    }

    /** The most popular entry tagged `FallbackMostPopular`; None for an empty catalog. */
    function GetFallbackZone(): (r: Option<ZoneInfo>)
      reads this
      ensures r.None? <==> Items() == []
    {
      Fallback(Items())
    }

    /**
     * A copy of the catalog entry of the first candidate key of `gemeente`'s
     * table row that is in the catalog, tagged `CityHeuristics`. The
     * postcode digits take no part.
     */
    method FindZoneByCityHeuristics(gemeente: string, postcodeCijfers: string) returns (r: Option<ZoneInfo>)
      ensures r == HeuristicMatch(gemeente, availableZones)
    {
      var patterns := CityPatterns(gemeente);
      if patterns.None? {
        return None;
      }
      var pats := patterns.value;
      var j := 0;
      while j < |pats|
        invariant 0 <= j <= |pats|
        invariant FirstPresent(Candidates(pats), availableZones) == FirstPresent(Candidates(pats[j..]), availableZones)
      {
        var areaId := pats[j].areaManagerId;
        var fareCodes := pats[j].fareCodes;
        var keys := PatternKeys(pats[j]);
        var rest := Candidates(pats[j + 1..]);
        CandidatesFrom(pats, j);
        var k := 0;
        while k < |fareCodes|
          invariant 0 <= k <= |fareCodes|
          invariant FirstPresent(Candidates(pats), availableZones) == FirstPresent(keys[k..] + rest, availableZones)
        {
          var zoneKey := ZoneKey(areaId, fareCodes[k]);
          FirstPresentAt(keys, k, rest, availableZones);
          if zoneKey in availableZones {
            return Some(Tagged(availableZones[zoneKey], CityHeuristics));
          }
          k := k + 1;
        }
        FirstPresentAt(keys, k, rest, availableZones);
        j := j + 1;
      }
      assert pats[|pats|..] == [];
      r := None;
    }

    /**
     * The zone of a postcode and a BAG address, memoised: a cached key gives
     * the cached zone and touches nothing; otherwise the heuristic's zone,
     * or else the most popular one, is stored and returned. An address
     * without municipality makes `.lower()` raise: `raised` is set and
     * nothing changes.
     */
    method FindBestZoneForPostcode(postcode: string, adres: Address) returns (raised: bool, zone: Option<ZoneInfo>)
      requires Valid()
      modifies this
      ensures Valid()
      ensures availableZones == old(availableZones) && zoneOrder == old(zoneOrder)
      ensures raised <==> adres.gemeente.None?
      ensures raised ==> zone.None? && postcodeToZoneCache == old(postcodeToZoneCache)
      ensures !raised ==>
        var key := CacheKey(Normalize(postcode), Lower(adres.gemeente.value));
        && (key in old(postcodeToZoneCache) ==>
              zone == Some(old(postcodeToZoneCache)[key]) && postcodeToZoneCache == old(postcodeToZoneCache))
        && (key !in old(postcodeToZoneCache) ==>
              && zone == Resolve(Lower(adres.gemeente.value), availableZones, Items())
              && postcodeToZoneCache == if zone.Some? then old(postcodeToZoneCache)[key := zone.value]
                                       else old(postcodeToZoneCache))
      ensures !raised ==> (zone.Some? <==> Items() != [])
      ensures zone.Some? ==> IsResolvedCopy(zone.value)
    {
      var postcodeClean := Normalize(postcode);
      var postcodeCijfers := Prefix4(postcodeClean);
      if adres.gemeente.None? {
        return true, None;
      }
      raised := false;
      var gemeente := Lower(adres.gemeente.value);
      var cacheKey := CacheKey(postcodeClean, gemeente);
      if cacheKey in postcodeToZoneCache {
        zone := Some(postcodeToZoneCache[cacheKey]);
        ItemsOfMembers(zoneOrder, availableZones);
        assert availableZones[zone.value.zoneId] in Items();
        return;
      }
      var bestZone := FindZoneByCityHeuristics(gemeente, postcodeCijfers);
      if bestZone.Some? {
        var z := Tagged(bestZone.value, CityHeuristics);
        var n := HeuristicMatchSpec(gemeente, availableZones);
        ItemsOfMembers(zoneOrder, availableZones);
        assert availableZones[z.zoneId] in Items();
        postcodeToZoneCache := postcodeToZoneCache[cacheKey := z];
        return false, Some(z);
      }
      bestZone := GetFallbackZone();
      if bestZone.Some? {
        var z := Tagged(bestZone.value, MostPopular);
        var n := FallbackSpec(Items());
        ItemsOfMembers(zoneOrder, availableZones);
        assert Items()[n] in Items();
        postcodeToZoneCache := postcodeToZoneCache[cacheKey := z];
        return false, Some(z);
      }
      zone := None;
    }

    /** The fallback zone reported, with the unknown address, when resolution raises. */
    function ErrorFallbackResult(): (r: Option<ZoneResult>)
      reads this
      ensures r.None? <==> Items() == []
    {
      match GetFallbackZone()
      case None => None
      case Some(z) => Some(ZoneResult(z.zoneId, z.zoneNaam, z.areaManagerId, z.fareCalculationCode, UnknownAddress, ErrorFallback))
    }

    /** Resolution raises when the postcode prefix is no number and no address came back, or the address has no municipality. */
    ghost predicate RaisesFor(postcode: string, bag: Option<Address>)
    {
      if bag.None? then GuessCityFromPostcode(Prefix4(Normalize(postcode))).None?
      else bag.value.gemeente.None?
    }

    /** The address resolution works with: the BAG address, or one built from the guessed city. */
    function AddressUsed(postcode: string, bag: Option<Address>): Address
      requires !RaisesFor(postcode, bag)
    {
      if bag.Some? then bag.value else GuessedAddress(GuessCityFromPostcode(Prefix4(Normalize(postcode))).value)
    }

    /**
     * The zone of an address. `bag` is what the BAG lookup returned (None
     * when it failed). A zone comes back whenever the catalog is not
     * empty: the resolved one with the address used, or, when resolution
     * raises, the fallback with the unknown address and nothing cached.
     */
    method GetZoneByAddress(postcode: string, bag: Option<Address>) returns (r: Option<ZoneResult>)
      requires Valid()
      modifies this
      ensures Valid()
      ensures availableZones == old(availableZones) && zoneOrder == old(zoneOrder)
      ensures r.Some? <==> Items() != []
      ensures RaisesFor(postcode, bag) ==>
        r == ErrorFallbackResult() && postcodeToZoneCache == old(postcodeToZoneCache)
      ensures !RaisesFor(postcode, bag) && r.Some? ==>
        var adres := AddressUsed(postcode, bag);
        var key := CacheKey(Normalize(postcode), Lower(adres.gemeente.value));
        && r.value.adres == adres
        && (r.value.detectionMethod == CityHeuristics || r.value.detectionMethod == MostPopular)
        && key in postcodeToZoneCache && postcodeToZoneCache[key].zoneId == r.value.zoneId
      ensures !RaisesFor(postcode, bag) ==>
        var adres := AddressUsed(postcode, bag);
        var gemeente := Lower(adres.gemeente.value);
        var key := CacheKey(Normalize(postcode), gemeente);
        && (key in old(postcodeToZoneCache) ==>
              r == Some(ResultFor(old(postcodeToZoneCache)[key], adres))
              && postcodeToZoneCache == old(postcodeToZoneCache))
        && (key !in old(postcodeToZoneCache) ==>
              var resolved := Resolve(gemeente, availableZones, Items());
              && (resolved.Some? ==>
                    r == Some(ResultFor(resolved.value, adres))
                    && postcodeToZoneCache == old(postcodeToZoneCache)[key := resolved.value])
              && (resolved.None? ==> r.None? && postcodeToZoneCache == old(postcodeToZoneCache)))
      ensures r.Some? ==> r.value.zoneId in availableZones
      ensures r.Some? ==> r.value.detectionMethod != FallbackMostPopular && r.value.detectionMethod != Automatic
    {
      var postcodeClean := Normalize(postcode);
      var postcodeCijfers := Prefix4(postcodeClean);
      var adresData: Address;
      if bag.Some? {
        adresData := bag.value;
      } else {
        var city := GuessCityFromPostcode(postcodeCijfers);
        if city.None? {
          r := ErrorFallbackResult();
          FallbackInCatalog();
          return;
        }
        adresData := GuessedAddress(city.value);
      }
      NormalizeIdempotent(postcode);
      var raised, zoneInfo := FindBestZoneForPostcode(postcodeClean, adresData);
      if raised {
        r := ErrorFallbackResult();
        FallbackInCatalog();
        return;
      }
      if zoneInfo.None? {
        zoneInfo := GetFallbackZone();
      }
      if zoneInfo.Some? {
        r := Some(ResultFor(zoneInfo.value, adresData));
      } else {
        r := None;
      }
    }

    /** The fallback is a copy of a catalog entry. */
    lemma FallbackInCatalog()
      requires CatalogValid()
      ensures GetFallbackZone().Some? ==> GetFallbackZone().value.zoneId in availableZones
    {
      if Items() != [] {
        var n := FallbackSpec(Items());
        ItemsOfMembers(zoneOrder, availableZones);
        assert Items()[n] in Items();
      }
    }

    /** Resolving the same postcode and BAG answer twice gives the same result the second time. */
    method ResolveTwice(postcode: string, bag: Option<Address>) returns (first: Option<ZoneResult>, second: Option<ZoneResult>)
      requires Valid()
      modifies this
      ensures Valid()
      ensures second == first
    {
      first := GetZoneByAddress(postcode, bag);
      second := GetZoneByAddress(postcode, bag);
    }

    /** Every catalog entry, by non-increasing record count, and their number. */
    method GetAvailableZones() returns (result: AvailableZones)
      requires CatalogValid()
      ensures result.zones == SortBy(Items(), NegCount)
      ensures result.total == |result.zones| == |Items()|
    {
      var zones: seq<ZoneInfo> := [];
      for i := 0 to |zoneOrder|
        invariant zones == ItemsOf(zoneOrder[..i], availableZones)
      {
        var zoneKey := zoneOrder[i];
        var zoneInfo := availableZones[zoneKey];
        ItemsOfSnoc(zoneOrder, i, availableZones);
        zones := zones + [zoneInfo];
      }
      assert zoneOrder[..|zoneOrder|] == zoneOrder;
      zones := SortBy(zones, NegCount);
      result := AvailableZones(zones, |zones|);
    }

    /** The entries, in catalog order, whose name, code or area number holds the lower-cased term. */
    method SearchZonesByName(searchTerm: string) returns (results: seq<ZoneInfo>)
      requires CatalogValid()
      ensures results == SearchResults(Items(), Lower(searchTerm))
    {
      results := [];
      var term := Lower(searchTerm);
      for i := 0 to |zoneOrder|
        invariant results == SearchResults(ItemsOf(zoneOrder[..i], availableZones), term)
      {
        var zoneInfo := availableZones[zoneOrder[i]];
        ItemsOfSnoc(zoneOrder, i, availableZones);
        ghost var before := ItemsOf(zoneOrder[..i], availableZones);
        assert (before + [zoneInfo])[..|before|] == before;
        if MatchesTerm(zoneInfo, term) {
          results := results + [zoneInfo];
        }
      }
      assert zoneOrder[..|zoneOrder|] == zoneOrder;
    }

    /** The catalog entry filed under `zoneId`, if any. */
    function GetZoneById(zoneId: string): (r: Option<ZoneInfo>)
      requires CatalogValid()
      reads this
      ensures r.Some? ==> r.value.zoneId == zoneId && r.value in Items()
      ensures r.None? ==> forall z :: z in Items() ==> z.zoneId != zoneId
    {
      ItemsOfMembers(zoneOrder, availableZones);
      if zoneId in availableZones then Some(availableZones[zoneId]) else None
    }
  }
}
