/**
 * The NPR tariff service: selecting a zone's valid brackets from the
 * dataset, walking them to price a parking session, and the derived views
 * (cost breakdown, tariff structure, tariff validation).
 */
module NprTarief {
  import opened Wrappers
  import opened Text
  import opened Sorting
  import opened Dataset
  import opened DateUtils
  import opened Response
  import opened FareSchedule

  function StartKey(p: TariefPart): int { p.startDuration }

  /** The bracket a zone row describes. */
  function ToPart(r: Row, fareCalculationCode: string): TariefPart
  {
    TariefPart(r.areaManagerId, fareCalculationCode, r.startDateFarePart, r.endDateFarePart,
               r.startDurationFarePart, r.endDurationFarePart, r.amountFarePart,
               r.stepSizeFarePart, r.amountCumulative)
  }

  predicate ValidOn(r: Row, calcDate: string)
  {
    IsDateInRange(calcDate, r.startDateFarePart, r.endDateFarePart)
  }

  /** The brackets of the rows valid on `calcDate`, in row order. */
  function ValidParts(zoneRows: seq<Row>, fareCalculationCode: string, calcDate: string): seq<TariefPart>
  {
    if zoneRows == [] then []
    else
      var last := zoneRows[|zoneRows| - 1];
      ValidParts(zoneRows[..|zoneRows| - 1], fareCalculationCode, calcDate)
        + (if ValidOn(last, calcDate) then [ToPart(last, fareCalculationCode)] else [])
  }

  /**
   * The brackets the service uses for a zone on a date: the zone's rows
   * valid on that date, stably sorted by start duration. Without a loaded
   * dataset there are none.
   */
  function SelectTariefParts(data: Option<seq<Row>>, areaManagerId: int, fareCalculationCode: string,
                             calcDate: string): seq<TariefPart>
  {
    if data.None? then []
    else SortBy(ValidParts(ZoneRows(data.value, areaManagerId, fareCalculationCode), fareCalculationCode, calcDate),
                StartKey)
  }

  /** Scanning one more row appends its bracket exactly when the row is valid. */
  lemma ValidPartsStep(zoneRows: seq<Row>, i: nat, fareCalculationCode: string, calcDate: string)
    requires i < |zoneRows|
    ensures ValidParts(zoneRows[..i + 1], fareCalculationCode, calcDate)
      == ValidParts(zoneRows[..i], fareCalculationCode, calcDate)
         + (if ValidOn(zoneRows[i], calcDate) then [ToPart(zoneRows[i], fareCalculationCode)] else [])
  {
    assert zoneRows[..i + 1][..i] == zoneRows[..i];
  }

  lemma {:induction false} ValidPartsMembers(zoneRows: seq<Row>, fareCalculationCode: string, calcDate: string)
    ensures forall p :: p in ValidParts(zoneRows, fareCalculationCode, calcDate) <==>
      exists r :: r in zoneRows && ValidOn(r, calcDate) && p == ToPart(r, fareCalculationCode)
  {
    if zoneRows != [] {
      var init := zoneRows[..|zoneRows| - 1];
      ValidPartsMembers(init, fareCalculationCode, calcDate);
      assert zoneRows == init + [zoneRows[|zoneRows| - 1]];
    }
  }

  /**
   * The selected brackets are exactly the zone's rows valid on the date,
   * each once (a permutation of them), sorted by start duration, with
   * brackets of equal start in dataset order.
   */
  lemma SelectTariefPartsSpec(rows: seq<Row>, areaManagerId: int, fareCalculationCode: string, calcDate: string)
    ensures var parts := SelectTariefParts(Some(rows), areaManagerId, fareCalculationCode, calcDate);
      && (forall p :: p in parts <==>
           exists r :: r in rows && r.areaManagerId == areaManagerId
                    && r.fareCalculationCode == Some(fareCalculationCode)
                    && ValidOn(r, calcDate) && p == ToPart(r, fareCalculationCode))
      && Sorted(parts, StartKey)
      && multiset(parts) == multiset(ValidParts(ZoneRows(rows, areaManagerId, fareCalculationCode), fareCalculationCode, calcDate))
      && (forall k :: KeyFilter(parts, StartKey, k)
                   == KeyFilter(ValidParts(ZoneRows(rows, areaManagerId, fareCalculationCode), fareCalculationCode, calcDate), StartKey, k))
  {
    var zr := ZoneRows(rows, areaManagerId, fareCalculationCode);
    var valid := ValidParts(zr, fareCalculationCode, calcDate);
    var parts := SortBy(valid, StartKey);
    ZoneRowsMembers(rows, areaManagerId, fareCalculationCode);
    ValidPartsMembers(zr, fareCalculationCode, calcDate);
    SortByPermutes(valid, StartKey);
    SortBySorted(valid, StartKey);
    forall p ensures p in parts <==> p in valid {
      assert p in parts <==> p in multiset(parts);
      assert p in valid <==> p in multiset(valid);
    }
    forall k ensures KeyFilter(parts, StartKey, k) == KeyFilter(valid, StartKey, k) {
      SortByStable(valid, StartKey, k);
    }
  }

  /** The selected brackets are sorted by start and all belong to the requested zone. */
  lemma SelectedBelongToZone(rows: seq<Row>, areaManagerId: int, fareCalculationCode: string, calcDate: string)
    ensures var parts := SelectTariefParts(Some(rows), areaManagerId, fareCalculationCode, calcDate);
      && Sorted(parts, StartKey)
      && forall p :: p in parts ==> p.areaManagerId == areaManagerId && p.fareCalculationCode == fareCalculationCode
  {
    SelectTariefPartsSpec(rows, areaManagerId, fareCalculationCode, calcDate);
  }

  /** A zone whose every row is outside the date, or that has no rows, has no brackets. */
  lemma SelectTariefPartsEmpty(rows: seq<Row>, areaManagerId: int, fareCalculationCode: string, calcDate: string)
    ensures SelectTariefParts(Some(rows), areaManagerId, fareCalculationCode, calcDate) == [] <==>
      forall r :: r in rows && r.areaManagerId == areaManagerId && r.fareCalculationCode == Some(fareCalculationCode)
        ==> !ValidOn(r, calcDate)
  {
    var parts := SelectTariefParts(Some(rows), areaManagerId, fareCalculationCode, calcDate);
    SelectTariefPartsSpec(rows, areaManagerId, fareCalculationCode, calcDate);
    if parts != [] {
      assert parts[0] in parts;
    }
    forall r | r in rows && r.areaManagerId == areaManagerId && r.fareCalculationCode == Some(fareCalculationCode)
               && ValidOn(r, calcDate)
      ensures parts != []
    {
      assert ToPart(r, fareCalculationCode) in parts;
    }
  }

  /** The zone fields a caller hands to the service; the id and name may be missing. */
  datatype ZoneRef = ZoneRef(
    areaManagerId: int,
    fareCalculationCode: string,
    zoneId: Option<string>,
    zoneNaam: Option<string>)

  /** One line of the cost breakdown. */
  datatype Detail = Detail(startDuration: int, endDuration: int, amountPerStep: int, stepSizeMinutes: int)

  /** A priced session: whole minutes, total in cents, breakdown and unit information. */
  datatype Kosten = Kosten(duurMinuten: int, totaalKosten: int, details: seq<Detail>, tariefInfo: TariefInfo)

  /** One bracket of a published tariff structure. */
  datatype Tarief = Tarief(startDuration: int, endDuration: int, amount: int, stepSize: int, cumulativeAmount: int)

  datatype TariefStructuur = TariefStructuur(
    zoneId: string,
    zoneNaam: string,
    tarieven: seq<Tarief>,
    geldigVan: string,
    geldigTot: string)

  /** The end date of every published structure. */
  const FarFuture: string := "99991231"

  const DetailCount: nat := 3

  function DetailOf(p: TariefPart): Detail
  {
    Detail(p.startDuration, p.endDuration, p.amount, p.stepSize)
  }

  function TariefOf(p: TariefPart): Tarief
  {
    Tarief(p.startDuration, p.endDuration, p.amount, p.stepSize, p.cumulativeAmount)
  }

  /** A missing or empty calculation date falls back to the default date. */
  function EffectiveDate(calcDate: Option<string>, defaultDate: string): string
  {
    if calcDate.None? || calcDate.value == "" then defaultDate else calcDate.value
  }

  /** Some row of the dataset prices the zone on the date. */
  predicate HasValidRow(data: Option<seq<Row>>, areaManagerId: int, fareCalculationCode: string, calcDate: string)
  {
    data.Some? &&
    exists r :: r in data.value && r.areaManagerId == areaManagerId
             && r.fareCalculationCode == Some(fareCalculationCode) && ValidOn(r, calcDate)
  }

  /** With a loaded dataset, a zone has brackets on a date exactly when one of its rows is valid then. */
  lemma HasPartsIffValidRow(data: Option<seq<Row>>, areaManagerId: int, fareCalculationCode: string, calcDate: string)
    ensures SelectTariefParts(data, areaManagerId, fareCalculationCode, calcDate) != []
        <==> HasValidRow(data, areaManagerId, fareCalculationCode, calcDate)
  {
    if data.Some? {
      SelectTariefPartsEmpty(data.value, areaManagerId, fareCalculationCode, calcDate);
    }
  }

  class NprTariefService {
    /** The loaded dataset; `None` when loading failed. */
    var tariefData: Option<seq<Row>>

    constructor (data: Option<seq<Row>>)
      ensures tariefData == data
    {
      tariefData := data;
    }

    /**
     * The zone's brackets valid on `calcDate`, sorted by start duration:
     * the zone's rows are scanned in order, the valid ones collected, and
     * the collection sorted.
     */
    method GetTariefParts(areaManagerId: int, fareCalculationCode: string, calcDate: string)
      returns (parts: seq<TariefPart>)
      ensures parts == SelectTariefParts(tariefData, areaManagerId, fareCalculationCode, calcDate)
      ensures Sorted(parts, StartKey)
      ensures forall p :: p in parts ==> p.areaManagerId == areaManagerId && p.fareCalculationCode == fareCalculationCode
    {
      if tariefData.None? {
        return [];
      }
      var rows := tariefData.value;
      var zoneData := ZoneRows(rows, areaManagerId, fareCalculationCode);
      if zoneData == [] {
        return [];
      }
      var validTariffs: seq<TariefPart> := [];
      for i := 0 to |zoneData|
        invariant validTariffs == ValidParts(zoneData[..i], fareCalculationCode, calcDate)
      {
        var row := zoneData[i];
        ValidPartsStep(zoneData, i, fareCalculationCode, calcDate);
        if IsDateInRange(calcDate, row.startDateFarePart, row.endDateFarePart) {
          validTariffs := validTariffs + [ToPart(row, fareCalculationCode)];
        }
      }
      assert zoneData[..|zoneData|] == zoneData;
      parts := SortBy(validTariffs, StartKey);
      SelectedBelongToZone(rows, areaManagerId, fareCalculationCode, calcDate);
    }

    /**
     * Prices `durationMinutes` over the sorted brackets `parts`: the walk
     * of `Uses`, then the leftover minutes on an unbounded last bracket.
     * The remaining duration never grows, and never drops below zero.
     */
    method CalculateTotalCost(parts: seq<TariefPart>, durationMinutes: int)
      returns (totalCost: int, tariefInfo: TariefInfo)
      ensures totalCost == TotalCost(parts, durationMinutes)
      ensures tariefInfo == InfoOf(Uses(parts, durationMinutes, durationMinutes))
    {
      totalCost := 0;
      var remainingDuration := durationMinutes;
      tariefInfo := InitialInfo;
      ghost var done: seq<Use> := [];
      WalkStart(parts, durationMinutes);
      var i := 0;
      while i < |parts|
        invariant WalkAt(parts, durationMinutes, i, remainingDuration, done)
        invariant totalCost == SumCost(done)
        invariant tariefInfo == InfoOf(done)
        decreases |parts| - i
      {
        if remainingDuration <= 0 {
          break;
        }
        var part := parts[i];
        if durationMinutes - remainingDuration < part.startDuration {
          WalkSkip(parts, durationMinutes, i, remainingDuration, done);
          i := i + 1;
          continue;
        }
        var minutesInPart := MinutesInPart(part, durationMinutes, remainingDuration);
        if minutesInPart > 0 {
          WalkTake(parts, durationMinutes, i, remainingDuration, done);
          done := done + [Use(part, durationMinutes - remainingDuration, minutesInPart)];
          var partCost := CalculatePartCost(part, minutesInPart);
          totalCost := totalCost + partCost;
          if tariefInfo.tariefPerEenheid == 0 {
            tariefInfo := TariefInfo(part.amount, UnitText(part));
          }
          remainingDuration := remainingDuration - minutesInPart;
        } else {
          WalkSkip(parts, durationMinutes, i, remainingDuration, done);
        }
        i := i + 1;
      }
      WalkEnd(parts, durationMinutes, i, remainingDuration, done);
      assert totalCost == SumCost(Uses(parts, durationMinutes, durationMinutes));
      if remainingDuration > 0 && parts != [] {
        var lastPart := parts[|parts| - 1];
        if lastPart.endDuration == Unbounded {
          var partCost := CalculatePartCost(lastPart, remainingDuration);
          totalCost := totalCost + partCost;
        }
      }
    }

    /**
     * The cost of parking in `zone` from `startTijd` to `eindTijd`, with
     * brackets valid on `calcDate` (the start's date). None when the session
     * lasts no whole minute or the zone has no brackets on that date;
     * otherwise the whole minutes, the total and the unit information of
     * the walk, and the first three sorted brackets as breakdown.
     */
    method BerekenKosten(zone: ZoneRef, startTijd: Timestamp, eindTijd: Timestamp, calcDate: string)
      returns (r: Option<Kosten>)
      ensures var d := TruncDiv(eindTijd - startTijd, MicrosPerMinute);
              var parts := SelectTariefParts(tariefData, zone.areaManagerId, zone.fareCalculationCode, calcDate);
              && (r.None? <==> d <= 0 || parts == [])
              && (r.Some? ==>
                    && r.value.duurMinuten == CalculateDurationMinutes(startTijd, eindTijd) == d
                    && r.value.totaalKosten == TotalCost(parts, d)
                    && r.value.tariefInfo == InfoOf(Uses(parts, d, d))
                    && |r.value.details| == Min(DetailCount, |parts|)
                    && forall k :: 0 <= k < |r.value.details| ==> r.value.details[k] == DetailOf(parts[k]))
    {
      var durationMinutes := TruncDiv(eindTijd - startTijd, MicrosPerMinute);
      if durationMinutes <= 0 {
        return None;
      }
      var tariefParts := GetTariefParts(zone.areaManagerId, zone.fareCalculationCode, calcDate);
      if tariefParts == [] {
        return None;
      }
      var totalCost, tariefInfo := CalculateTotalCost(tariefParts, durationMinutes);
      var details := Breakdown(tariefParts);
      r := Some(Kosten(durationMinutes, totalCost, details, tariefInfo));
    }

    /** The breakdown lines of the first `DetailCount` brackets, in order. */
    static method Breakdown(parts: seq<TariefPart>) returns (details: seq<Detail>)
      ensures |details| == Min(DetailCount, |parts|)
      ensures forall k :: 0 <= k < |details| ==> details[k] == DetailOf(parts[k])
    {
      details := [];
      var shown := Min(DetailCount, |parts|);
      for k := 0 to shown
        invariant |details| == k
        invariant forall j :: 0 <= j < k ==> details[j] == DetailOf(parts[j])
      {
        details := details + [DetailOf(parts[k])];
      }
    }

    /**
     * The zone's tariff structure valid on `calcDate`: every sorted bracket,
     * under the zone's id and name (or the derived ones when the caller
     * gives none), valid from `calcDate` on. None when there are no brackets.
     */
    method GetTariefStructuur(zone: ZoneRef, calcDate: string) returns (r: Option<TariefStructuur>)
      ensures var parts := SelectTariefParts(tariefData, zone.areaManagerId, zone.fareCalculationCode, calcDate);
              && (r.None? <==> parts == [])
              && (r.Some? ==>
                    && r.value.zoneId == (if zone.zoneId.Some? then zone.zoneId.value
                                         else ZoneKey(zone.areaManagerId, zone.fareCalculationCode))
                    && r.value.zoneNaam == (if zone.zoneNaam.Some? then zone.zoneNaam.value
                                           else "Zone " + IntToString(zone.areaManagerId))
                    && |r.value.tarieven| == |parts|
                    && (forall k :: 0 <= k < |parts| ==> r.value.tarieven[k] == TariefOf(parts[k]))
                    && r.value.geldigVan == calcDate
                    && r.value.geldigTot == FarFuture)
    {
      var tariefParts := GetTariefParts(zone.areaManagerId, zone.fareCalculationCode, calcDate);
      if tariefParts == [] {
        return None;
      }
      var tarieven: seq<Tarief> := [];
      for k := 0 to |tariefParts|
        invariant |tarieven| == k
        invariant forall j :: 0 <= j < k ==> tarieven[j] == TariefOf(tariefParts[j])
      {
        tarieven := tarieven + [TariefOf(tariefParts[k])];
      }
      var zoneId := if zone.zoneId.Some? then zone.zoneId.value else ZoneKey(zone.areaManagerId, zone.fareCalculationCode);
      var zoneNaam := if zone.zoneNaam.Some? then zone.zoneNaam.value else "Zone " + IntToString(zone.areaManagerId);
      r := Some(TariefStructuur(zoneId, zoneNaam, tarieven, calcDate, FarFuture));
    }

    /**
     * Whether the zone has a valid tariff on `calcDate`, or on `defaultDate`
     * when no date (or an empty one) is given: exactly when a row of the
     * zone is valid on that date.
     */
    method ValidateZoneTariff(zone: NprZone, calcDate: Option<string>, defaultDate: string) returns (valid: bool)
      ensures valid <==> HasValidRow(tariefData, zone.areaManagerId, zone.fareCalculationCode,
                                     EffectiveDate(calcDate, defaultDate))
    {
      var date := if calcDate.None? || calcDate.value == "" then defaultDate else calcDate.value;
      var tariefParts := GetTariefParts(zone.areaManagerId, zone.fareCalculationCode, date);
      HasPartsIffValidRow(tariefData, zone.areaManagerId, zone.fareCalculationCode, date);
      valid := |tariefParts| > 0;
    }
  }
}
