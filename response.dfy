/** The record types of the calculator and the validation of a calculation request. */
module Response {
  import opened Wrappers
  import opened DateUtils

  /** One bracket of a zone's fare schedule, as read from a dataset row; money in cents. */
  datatype TariefPart = TariefPart(
    areaManagerId: int,
    fareCalculationCode: string,
    startDate: string,
    endDate: string,
    startDuration: int,
    endDuration: int,
    amount: int,
    stepSize: int,
    cumulativeAmount: int)

  /** A zone as the tariff service receives it for validation. */
  datatype NprZone = NprZone(areaManagerId: int, fareCalculationCode: string, zoneName: string)

  /** A calculation request; a missing moment is `None`. */
  datatype CalculationInput = CalculationInput(
    postcode: string,
    huisnummer: int,
    starttijd: Option<Timestamp>,
    eindtijd: Option<Timestamp>)

  datatype ValidationError =
    | PostcodeLength
    | HuisnummerTooSmall
    | StarttijdMissing
    | EindtijdMissing
    | StartNotBeforeEnd

  /** The message text reported for each error. */
  function Message(e: ValidationError): string
  {
    match e
    case PostcodeLength => "Postcode moet 6 karakters zijn"
    case HuisnummerTooSmall => "Huisnummer moet groter zijn dan 0"
    case StarttijdMissing => "Starttijd is verplicht"
    case EindtijdMissing => "Eindtijd is verplicht"
    case StartNotBeforeEnd => "Starttijd moet voor eindtijd liggen"
  }

  /** The position of each check in the validation sequence. */
  function Rank(e: ValidationError): nat
  {
    match e
    case PostcodeLength => 0
    case HuisnummerTooSmall => 1
    case StarttijdMissing => 2
    case EindtijdMissing => 3
    case StartNotBeforeEnd => 4
  }

  /** A request is acceptable when all five checks pass. */
  predicate Acceptable(input: CalculationInput)
  {
    && |input.postcode| == 6
    && input.huisnummer >= 1
    && input.starttijd.Some?
    && input.eindtijd.Some?
    && input.starttijd.value < input.eindtijd.value
  }

  /** Whether the check that reports `e` fails on the request. */
  predicate Fails(input: CalculationInput, e: ValidationError)
  {
    match e
    case PostcodeLength => |input.postcode| != 6
    case HuisnummerTooSmall => input.huisnummer < 1
    case StarttijdMissing => input.starttijd.None?
    case EindtijdMissing => input.eindtijd.None?
    case StartNotBeforeEnd =>
      input.starttijd.Some? && input.eindtijd.Some? && input.starttijd.value >= input.eindtijd.value
  }

  /** The error reported by the check at position `k` of the sequence. */
  function CheckAt(k: nat): (e: ValidationError)
    requires k < 5
    ensures Rank(e) == k
  {
    if k == 0 then PostcodeLength
    else if k == 1 then HuisnummerTooSmall
    else if k == 2 then StarttijdMissing
    else if k == 3 then EindtijdMissing
    else StartNotBeforeEnd
  }

  /** The errors reported by the first `k` checks, in check order. */
  function Reported(input: CalculationInput, k: nat): seq<ValidationError>
    requires k <= 5
  {
    if k == 0 then []
    else Reported(input, k - 1) + (if Fails(input, CheckAt(k - 1)) then [CheckAt(k - 1)] else [])
  }

  /**
   * The first `k` checks report exactly their failing checks, each once,
   * in check order.
   */
  lemma {:induction false} ReportedSpec(input: CalculationInput, k: nat)
    requires k <= 5
    ensures forall i :: 0 <= i < |Reported(input, k)| ==> Rank(Reported(input, k)[i]) < k
    ensures forall i, j :: 0 <= i < j < |Reported(input, k)| ==>
      Rank(Reported(input, k)[i]) < Rank(Reported(input, k)[j])
    ensures forall e :: e in Reported(input, k) <==> Rank(e) < k && Fails(input, e)
  {
    if k > 0 {
      ReportedSpec(input, k - 1);
      var e := CheckAt(k - 1);
      forall x
        ensures x in Reported(input, k) <==> Rank(x) < k && Fails(input, x)
      {
        if Rank(x) == k - 1 {
          assert x == e;
        }
      }
    }
  }

  /** A request is acceptable exactly when none of the five checks fails. */
  lemma AcceptableIffNoFailure(input: CalculationInput)
    ensures Acceptable(input) <==> forall e :: !Fails(input, e)
  {
    if !Acceptable(input) {
      if |input.postcode| != 6 {
        assert Fails(input, PostcodeLength);
      } else if input.huisnummer < 1 {
        assert Fails(input, HuisnummerTooSmall);
      } else if input.starttijd.None? {
        assert Fails(input, StarttijdMissing);
      } else if input.eindtijd.None? {
        assert Fails(input, EindtijdMissing);
      } else {
        assert Fails(input, StartNotBeforeEnd);
      }
    }
  }

  /** The first `k` checks report nothing exactly when none of them fails. */
  lemma ReportedEmpty(input: CalculationInput, k: nat)
    requires k <= 5
    ensures Reported(input, k) == [] <==> forall e :: Rank(e) < k ==> !Fails(input, e)
  {
    ReportedSpec(input, k);
    if Reported(input, k) != [] {
      assert Reported(input, k)[0] in Reported(input, k);
    }
  }

  /**
   * Collects the validation errors of a request, in the fixed order of the
   * checks. The postcode is taken as given: "1012 AB" has seven characters.
   */
  method Validate(input: CalculationInput) returns (errors: seq<ValidationError>)
    ensures PostcodeLength in errors <==> |input.postcode| != 6
    ensures HuisnummerTooSmall in errors <==> input.huisnummer < 1
    ensures StarttijdMissing in errors <==> input.starttijd.None?
    ensures EindtijdMissing in errors <==> input.eindtijd.None?
    ensures StartNotBeforeEnd in errors <==>
      input.starttijd.Some? && input.eindtijd.Some? && input.starttijd.value >= input.eindtijd.value
    ensures forall i, j :: 0 <= i < j < |errors| ==> Rank(errors[i]) < Rank(errors[j])
    ensures errors == [] <==> Acceptable(input)
  {
    ghost var checked: nat := 0;
    errors := [];
    if |input.postcode| != 6 {
      errors := errors + [PostcodeLength];
    }
    checked := checked + 1;
    assert errors == Reported(input, checked);
    if input.huisnummer < 1 {
      errors := errors + [HuisnummerTooSmall];
    }
    checked := checked + 1;
    assert errors == Reported(input, checked);
    if input.starttijd.None? {
      errors := errors + [StarttijdMissing];
    }
    checked := checked + 1;
    assert errors == Reported(input, checked);
    if input.eindtijd.None? {
      errors := errors + [EindtijdMissing];
    }
    checked := checked + 1;
    assert errors == Reported(input, checked);
    if input.starttijd.Some? && input.eindtijd.Some? && input.starttijd.value >= input.eindtijd.value {
      errors := errors + [StartNotBeforeEnd];
    }
    checked := checked + 1;
    assert errors == Reported(input, checked);
    ReportedSpec(input, checked);
    ReportedEmpty(input, checked);
    AcceptableIffNoFailure(input);
  }
}
