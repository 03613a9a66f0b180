/**
 * One row of the NPR tariff dataset (the CSV table both services load) and
 * the zone key derived from a row's area manager and fare code.
 */
module Dataset {
  import opened Wrappers
  import opened Text

  /**
   * A dataset row. Money is in euro cents. The dates are the text
   * `str(value)` gives for the date cells. A missing fare code (pandas NaN)
   * is `None`: it equals no string and pandas' grouping drops it.
   */
  datatype Row = Row(
    areaManagerId: int,
    fareCalculationCode: Option<string>,
    startDateFarePart: string,
    endDateFarePart: string,
    startDurationFarePart: int,
    endDurationFarePart: int,
    amountFarePart: int,
    stepSizeFarePart: int,
    amountCumulative: int)

  /** The zone identifier `f"{area_id}_{fare_code}"`. */
  function ZoneKey(areaId: int, fareCode: string): (k: string)
    ensures |k| > |fareCode|
  {
    IntToString(areaId) + "_" + fareCode
  }

  lemma UnderscoreAfter(s: string, c: string)
    ensures (s + "_" + c)[|s|] == '_'
  {
  }

  /**
   * Distinct (area, code) pairs give distinct keys: `str(area)` holds no
   * underscore, so the first underscore of a key ends the area part.
   */
  lemma ZoneKeyInjective(a: int, c: string, b: int, d: string)
    requires ZoneKey(a, c) == ZoneKey(b, d)
    ensures a == b && c == d
  {
    var sa, sb := IntToString(a), IntToString(b);
    var k := ZoneKey(a, c);
    IntToStringChars(a);
    IntToStringChars(b);
    if |sa| < |sb| {
      UnderscoreAfter(sa, c);
      assert false;
    } else if |sb| < |sa| {
      UnderscoreAfter(sb, d);
      assert false;
    }
    assert sa == k[..|sa|] == sb;
    IntToStringInjective(a, b);
    assert c == k[|sa| + 1..] == d;
  }

  /** The rows of one zone: equal area manager and equal fare code (a missing code equals nothing). */
  function ZoneRows(rows: seq<Row>, areaManagerId: int, fareCalculationCode: string): seq<Row>
  {
    if rows == [] then []
    else
      (if rows[0].areaManagerId == areaManagerId && rows[0].fareCalculationCode == Some(fareCalculationCode)
       then [rows[0]] else [])
      + ZoneRows(rows[1..], areaManagerId, fareCalculationCode)
  }

  lemma {:induction false} ZoneRowsMembers(rows: seq<Row>, areaManagerId: int, fareCalculationCode: string)
    ensures forall r :: r in ZoneRows(rows, areaManagerId, fareCalculationCode) <==>
      r in rows && r.areaManagerId == areaManagerId && r.fareCalculationCode == Some(fareCalculationCode)
  {
    if rows != [] {
      ZoneRowsMembers(rows[1..], areaManagerId, fareCalculationCode);
      assert rows == [rows[0]] + rows[1..];
    }
  }

  lemma {:induction false} ZoneRowsAppend(rows: seq<Row>, r: Row, areaManagerId: int, fareCalculationCode: string)
    ensures ZoneRows(rows + [r], areaManagerId, fareCalculationCode)
         == ZoneRows(rows, areaManagerId, fareCalculationCode)
            + (if r.areaManagerId == areaManagerId && r.fareCalculationCode == Some(fareCalculationCode) then [r] else [])
  {
    if rows != [] {
      assert (rows + [r])[1..] == rows[1..] + [r];
      ZoneRowsAppend(rows[1..], r, areaManagerId, fareCalculationCode);
    }
  }
}
