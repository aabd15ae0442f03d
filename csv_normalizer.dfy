/**
 * The row normaliser (crates/importer/src/services/csv_normalizer.rs): turns the records of a
 * semicolon-separated batch file into producer merchants, stopping at the first bad record.
 *
 * Field order of a record: 0 id, 1 merchant reference, 2 email, 3 live-on date,
 * 4 cadence token, 5 minimum monthly fee in major units.
 */
module CsvNormalizer {
  import opened Wrappers
  import opened Integers
  import opened Collecting
  import opened Digits
  import opened Dates
  import opened Uuids
  import opened ImporterEntities

  datatype NormalizeError =
    | FileUnreadable                   // the batch file could not be opened
    | CsvRecord                        // the reader could not produce the record
    | UnknownFrequency(token: string)  // carries the token as ToUpper gives it
    | InvalidId
    | InvalidDate
    | InvalidFee

  // ---------------------------------------------------------------- cadence token

  /**
   * Upper-casing of one character, as far as it matters for matching the cadence tokens:
   * the ASCII letters, and dotless i and long s, the only other characters whose upper case is
   * a single ASCII letter. Letters that expand (`ß`, the `ﬀ`-style ligatures) always yield an
   * `F` or an `S`, which neither token has, so they are left as they are.
   */
  function UpperChar(c: char): char {
    if 'a' <= c <= 'z' then (c as int - 32) as char
    else if c == 'ı' then 'I'  // dotless i
    else if c == 'ſ' then 'S'  // long s
    else c
  }

  function ToUpper(s: string): (u: string)
    ensures |u| == |s| && forall i | 0 <= i < |s| :: u[i] == UpperChar(s[i])
  {
    seq(|s|, i requires 0 <= i < |s| => UpperChar(s[i]))
  }

  /** The cadence column, matched against `DAILY` and `WEEKLY` after upper-casing. */
  function ParseFrequency(token: string): (r: Result<DisbursementFrequency, NormalizeError>)
    ensures r.Success? ==> ToUpper(token) == Display(r.value)
    ensures r.Failure? <==> ToUpper(token) != "DAILY" && ToUpper(token) != "WEEKLY"
    ensures r.Failure? ==> r.error == UnknownFrequency(ToUpper(token))
  {
    var upper := ToUpper(token);
    if upper == "DAILY" then Success(Daily)
    else if upper == "WEEKLY" then Success(Weekly)
    else Failure(UnknownFrequency(upper))
  }

  /** Tokens that agree letter by letter up to case are read as the same cadence. */
  lemma ParseFrequencyIgnoresCase(s: string, t: string)
    requires |s| == |t| && forall i | 0 <= i < |s| :: UpperChar(s[i]) == UpperChar(t[i])
    ensures ParseFrequency(s) == ParseFrequency(t)
  {
    assert ToUpper(s) == ToUpper(t);
  }

  /** `daily`, `Daily` and `DAILY` are all Daily; `weekly`, `Weekly` and `WEEKLY` all Weekly. */
  lemma ParseFrequencySpellings()
    ensures ParseFrequency("daily") == ParseFrequency("Daily") == ParseFrequency("DAILY") == Success(Daily)
    ensures ParseFrequency("weekly") == ParseFrequency("Weekly") == ParseFrequency("WEEKLY") == Success(Weekly)
    ensures ParseFrequency("MONTHLY") == Failure(UnknownFrequency("MONTHLY"))
  {
    assert ToUpper("daily") == "DAILY";
    assert ToUpper("Daily") == "DAILY";
    assert ToUpper("DAILY") == "DAILY";
    assert ToUpper("weekly") == "WEEKLY";
    assert ToUpper("Weekly") == "WEEKLY";
    assert ToUpper("WEEKLY") == "WEEKLY";
    assert ToUpper("MONTHLY") == "MONTHLY";
  }

  // ---------------------------------------------------------------- fee

  /** A decimal number `±units / 10^scale` as written in the fee column. */
  datatype Decimal = Decimal(negative: bool, units: nat, scale: nat)

  function Signed(d: Decimal): int {
    if d.negative then -(d.units as int) else d.units
  }

  /** The position of the first `c` in `s`, or `|s|` when there is none. */
  function IndexOf(s: string, c: char): (k: nat)
    ensures k <= |s| && (k < |s| ==> s[k] == c)
    ensures forall i | 0 <= i < k :: s[i] != c
  {
    if s == [] then 0 else if s[0] == c then 0 else 1 + IndexOf(s[1..], c)
  }

  /**
   * A decimal literal: an optional sign, digits, and an optional point followed by digits,
   * with at least one digit in all.
   */
  function ParseDecimal(s: string): Option<Decimal> {
    var negative := |s| > 0 && s[0] == '-';
    var body := if |s| > 0 && (s[0] == '-' || s[0] == '+') then s[1..] else s;
    var dot := IndexOf(body, '.');
    var whole := body[..dot];
    var fraction := if dot < |body| then body[dot + 1..] else [];
    if AllDigits(whole) && AllDigits(fraction) && |whole| + |fraction| > 0 then
      ValueOfConcat(whole, fraction);
      Some(Decimal(negative, ValueOf(whole + fraction), |fraction|))
    else None
  }

  function Abs(x: int): nat {
    if x < 0 then -x else x
  }

  /**
   * `num / den` rounded to the nearest integer, halves away from zero (Rust's `f64::round`).
   */
  function RoundHalfAwayFromZero(num: int, den: nat): (r: int)
    requires den > 0
    ensures 2 * Abs(num - r * den) <= den
    ensures 2 * Abs(num - r * den) == den ==> Abs(r * den) > Abs(num)
  {
    if num >= 0 then RoundNonNegative(num, den)
    else
      var q := RoundNonNegative(-num, den);
      RoundNegated(num, den, q);
      -(q as int)
  }

  /** Rounding `-num` and negating the result rounds `num`, halves again away from zero. */
  lemma RoundNegated(num: int, den: nat, q: nat)
    requires num < 0 && den > 0
    requires 2 * Abs(-num - q * den) <= den
    requires 2 * Abs(-num - q * den) == den ==> q * den > -num
    ensures 2 * Abs(num - (-(q as int)) * den) <= den
    ensures 2 * Abs(num - (-(q as int)) * den) == den ==> Abs((-(q as int)) * den) > Abs(num)
  {
    var p := q * den;
    assert (-(q as int)) * den == -p;
    assert Abs(num - -p) == Abs(-num - p);
  }

  function RoundNonNegative(num: nat, den: nat): (r: nat)
    requires den > 0
    ensures 2 * Abs(num - r * den) <= den
    ensures 2 * Abs(num - r * den) == den ==> r * den > num
  {
    var q, m := num / den, num % den;
    DivModParts(num, den);
    if 2 * m >= den then q + 1 else q
  }

  lemma DivModParts(num: nat, den: nat)
    requires den > 0
    ensures num == (num / den) * den + num % den && 0 <= num % den < den
    ensures (num / den + 1) * den == (num / den) * den + den
  {
  }

  /** The saturating `as i32` conversion. */
  function SaturateI32(x: int): (r: int)
    ensures I32Min <= r <= I32Max
    ensures I32Min <= x <= I32Max ==> r == x
    ensures x < I32Min ==> r == I32Min
    ensures x > I32Max ==> r == I32Max
  {
    if x < I32Min then I32Min else if x > I32Max then I32Max else x
  }

  /** The fee in cents before the `as i32` cast: the value × 100, rounded halves away from zero. */
  function FeeCents(s: string): Option<int> {
    match ParseDecimal(s)
    case None => None
    case Some(d) => Some(RoundHalfAwayFromZero(Signed(d) * 100, Pow10(d.scale)))
  }

  /** The fee column in cents: value × 100, rounded, saturated to `i32`. */
  function ParseFee(s: string): (r: Option<int>)
    ensures r.Some? ==> I32Min <= r.value <= I32Max
  {
    match FeeCents(s)
    case None => None
    case Some(c) => Some(SaturateI32(c))
  }

  /** In digits followed by a point, the first point is the one after the digits. */
  lemma IndexOfPoint(whole: string, fraction: string)
    requires AllDigits(whole)
    ensures IndexOf(whole + "." + fraction, '.') == |whole|
  {
    if whole != [] {
      assert (whole + "." + fraction)[1..] == whole[1..] + "." + fraction;
      IndexOfPoint(whole[1..], fraction);
    }
  }

  /** An unsigned literal `whole.fraction` denotes `whole ++ fraction` units at scale |fraction|. */
  lemma ParseDecimalPoint(whole: string, fraction: string)
    requires AllDigits(whole) && AllDigits(fraction) && |whole| + |fraction| > 0
    ensures AllDigits(whole + fraction)
    ensures ParseDecimal(whole + "." + fraction) == Some(Decimal(false, ValueOf(whole + fraction), |fraction|))
  {
    var s := whole + "." + fraction;
    assert s[0] != '-' && s[0] != '+' by {
      if |whole| > 0 { assert s[0] == whole[0]; } else { assert s[0] == '.'; }
    }
    IndexOfPoint(whole, fraction);
    assert s[..|whole|] == whole;
    assert s[|whole| + 1..] == fraction;
    ValueOfConcat(whole, fraction);
  }

  /** Digits alone denote that many units at scale 0. */
  lemma ParseDecimalWhole(whole: string)
    requires AllDigits(whole) && whole != []
    ensures whole[0] != '-' && whole[0] != '+'
    ensures ParseDecimal(whole) == Some(Decimal(false, ValueOf(whole), 0))
  {
    assert IsDigit(whole[0]);
    var dot := IndexOf(whole, '.');
    assert whole[..dot] == whole;
    assert whole + [] == whole;
  }

  /** `k` zero digits. */
  function Zeros(k: nat): (z: string)
    ensures |z| == k && AllDigits(z) && ValueOf(z) == 0
  {
    if k == 0 then []
    else
      var z := Zeros(k - 1);
      assert (z + "0")[..k - 1] == z;
      z + "0"
  }

  /**
   * The digits of `whole.fraction` counted in cents, for at most two decimal places: the
   * fraction padded with zeros to two places (`12.5` gives `1250`).
   */
  function CentDigits(whole: string, fraction: string): (c: string)
    requires AllDigits(whole) && AllDigits(fraction) && |fraction| <= 2
    ensures AllDigits(c) && |c| == |whole| + 2
  {
    ValueOfConcat(whole, fraction);
    ValueOfConcat(whole + fraction, Zeros(2 - |fraction|));
    whole + fraction + Zeros(2 - |fraction|)
  }

  /** `whole.fraction` with at most two decimal places is an exact number of cents. */
  lemma FeeCentsPoint(whole: string, fraction: string)
    requires AllDigits(whole) && AllDigits(fraction) && |fraction| <= 2 && |whole| + |fraction| > 0
    ensures FeeCents(whole + "." + fraction) == Some(ValueOf(CentDigits(whole, fraction)))
  {
    ParseDecimalPoint(whole, fraction);
    PointCents(whole, fraction);
  }

  /** The rounding `FeeCents` applies to the decimal of `whole.fraction` is exact. */
  lemma PointCents(whole: string, fraction: string)
    requires AllDigits(whole) && AllDigits(fraction) && |fraction| <= 2
    ensures AllDigits(whole + fraction)
    ensures var d := Decimal(false, ValueOf(whole + fraction), |fraction|);
      RoundHalfAwayFromZero(Signed(d) * 100, Pow10(d.scale)) == ValueOf(CentDigits(whole, fraction))
  {
    ValueOfConcat(whole, fraction);
    var units, k := ValueOf(whole + fraction), |fraction|;
    ValueOfConcat(whole + fraction, Zeros(2 - k));
    var cents := ValueOf(CentDigits(whole, fraction));
    assert cents == units * Pow10(2 - k);
    CentsScale(units, k);
    ExactRounding(units * 100, cents, Pow10(k));
  }

  lemma CentsScale(units: nat, k: nat)
    requires k <= 2
    ensures units * 100 == units * Pow10(2 - k) * Pow10(k)
  {
    assert Pow10(0) == 1 && Pow10(1) == 10 && Pow10(2) == 100;
  }

  /** Digits without a point are whole units: 100 cents each. */
  lemma FeeCentsWhole(whole: string)
    requires AllDigits(whole) && whole != []
    ensures FeeCents(whole) == Some(ValueOf(whole) * 100)
  {
    ParseDecimalWhole(whole);
    WholeCents(ValueOf(whole));
  }

  lemma WholeCents(units: nat)
    ensures RoundHalfAwayFromZero(units * 100, Pow10(0)) == units * 100
  {
    assert Pow10(0) == 1;
    ExactRounding(units * 100, units * 100, 1);
  }

  /** A leading `+` changes nothing. */
  lemma FeeCentsPlus(body: string)
    requires body == [] || (body[0] != '-' && body[0] != '+')
    ensures FeeCents("+" + body) == FeeCents(body)
  {
    var s := "+" + body;
    assert s[0] == '+' && s[1..] == body;
    assert ParseDecimal(s) == ParseDecimal(body);
  }

  /** A leading `-` negates the cents; halves round away from zero on both sides. */
  lemma FeeCentsMinus(body: string)
    requires body == [] || (body[0] != '-' && body[0] != '+')
    ensures FeeCents(body).None? ==> FeeCents("-" + body).None?
    ensures FeeCents(body).Some? ==> FeeCents("-" + body) == Some(-FeeCents(body).value)
  {
    var s := "-" + body;
    assert s[0] == '-' && s[1..] == body;
    if ParseDecimal(body).Some? {
      var d := ParseDecimal(body).value;
      assert ParseDecimal(s) == Some(d.(negative := true));
      NegatedCents(d);
    }
  }

  lemma NegatedCents(d: Decimal)
    requires !d.negative
    ensures RoundHalfAwayFromZero(Signed(d.(negative := true)) * 100, Pow10(d.(negative := true).scale))
         == -RoundHalfAwayFromZero(Signed(d) * 100, Pow10(d.scale))
  {
    RoundNegate(d.units * 100, Pow10(d.scale));
  }

  /** Rounding is symmetric: halves go away from zero on both sides. */
  lemma RoundNegate(num: nat, den: nat)
    requires den > 0
    ensures RoundHalfAwayFromZero(-(num as int), den) == -RoundHalfAwayFromZero(num, den)
  {
    if num == 0 {
      assert RoundNonNegative(0, den) == 0;
    }
  }

  /** The fee is the saturated cent amount. */
  lemma ParseFeeOfCents(s: string, cents: int)
    requires FeeCents(s) == Some(cents)
    ensures ParseFee(s) == Some(SaturateI32(cents))
  {
  }

  /** With at most two decimal places no rounding happens: the fee is the exact cent amount. */
  lemma ParseFeeExact(whole: string, fraction: string)
    requires AllDigits(whole) && AllDigits(fraction) && |fraction| <= 2 && |whole| + |fraction| > 0
    ensures ParseFee(whole + "." + fraction) == Some(SaturateI32(ValueOf(CentDigits(whole, fraction))))
  {
    FeeCentsPoint(whole, fraction);
  }

  /** Digits without a point: the whole units in cents. */
  lemma ParseFeeWhole(whole: string)
    requires AllDigits(whole) && whole != []
    ensures ParseFee(whole) == Some(SaturateI32(ValueOf(whole) * 100))
  {
    FeeCentsWhole(whole);
  }

  /** A leading `+` is accepted and changes nothing. */
  lemma ParseFeePlus(body: string)
    requires body == [] || (body[0] != '-' && body[0] != '+')
    ensures ParseFee("+" + body) == ParseFee(body)
  {
    FeeCentsPlus(body);
  }

  /** A negative literal `-whole.fraction` with at most two decimal places: the exact cents, negated. */
  lemma ParseFeeMinusExact(whole: string, fraction: string)
    requires AllDigits(whole) && AllDigits(fraction) && |fraction| <= 2 && |whole| + |fraction| > 0
    ensures ParseFee("-" + (whole + "." + fraction)) == Some(SaturateI32(-(ValueOf(CentDigits(whole, fraction)) as int)))
  {
    var body := whole + "." + fraction;
    assert body[0] != '-' && body[0] != '+' by {
      if |whole| > 0 { assert body[0] == whole[0]; } else { assert body[0] == '.'; }
    }
    var cents := ValueOf(CentDigits(whole, fraction));
    FeeCentsPoint(whole, fraction);
    FeeCentsMinus(body);
    assert FeeCents("-" + body) == Some(-(cents as int));
    ParseFeeOfCents("-" + body, -(cents as int));
  }

  /** A negative literal without a point: the whole units in cents, negated. */
  lemma ParseFeeMinusWhole(whole: string)
    requires AllDigits(whole) && whole != []
    ensures ParseFee("-" + whole) == Some(SaturateI32(-100 * ValueOf(whole)))
  {
    ParseDecimalWhole(whole);
    FeeCentsWhole(whole);
    FeeCentsMinus(whole);
  }

  lemma ExactRounding(num: int, exact: int, den: nat)
    requires den > 0 && exact >= 0 && num == exact * den
    ensures RoundHalfAwayFromZero(num, den) == exact
  {
    var r := RoundHalfAwayFromZero(num, den);
    var diff := exact - r;
    var off := num - r * den;
    assert 2 * Abs(off) <= den;
    MulSub(exact, r, den);
    assert off == diff * den;
    AbsMul(diff, den);
    MultipleAtLeast(Abs(diff), den);
  }

  lemma MulSub(a: int, b: int, d: int)
    ensures a * d - b * d == (a - b) * d
  {
  }

  lemma AbsMul(x: int, d: nat)
    ensures Abs(x * d) == Abs(x) * d
  {
    if x < 0 {
      assert x * d == -((-x) * d);
    }
  }

  /** A positive multiple of `d` is at least `d`. */
  lemma MultipleAtLeast(x: nat, d: nat)
    ensures x > 0 ==> x * d >= d
  {
    if x > 0 {
      assert x * d == (x - 1) * d + d;
    }
  }

  /** A two-digit string denotes tens times ten plus units. */
  lemma ValueOfTwoDigits(s: string)
    requires |s| == 2 && AllDigits(s)
    ensures ValueOf(s) == DigitValue(s[0]) * 10 + DigitValue(s[1])
  {
    var first := s[..1];
    assert first[..0] == [] && first[0] == s[0];
    assert ValueOf(first) == DigitValue(s[0]);
    assert ValueOf(s) == ValueOf(first) * 10 + DigitValue(s[1]);
  }

  /** `12.50` is 1250 cents. */
  lemma ParseFeeTwelveFifty(literal: string)
    requires literal == "12.50"
    ensures ParseFee(literal) == Some(1250)
  {
    var whole, fraction := literal[..2], literal[3..];
    assert literal == whole + "." + fraction;
    ParseFeeExact(whole, fraction);
    CentDigitsValue(whole, fraction);
    assert Pow10(0) == 1;
    ValueOfTwoDigits(whole);
    ValueOfTwoDigits(fraction);
  }

  /** `0.00` is 0 cents, the fee the re-import test expects. */
  lemma ParseFeeZero(literal: string)
    requires literal == "0.00"
    ensures ParseFee(literal) == Some(0)
  {
    var whole, fraction := literal[..1], literal[2..];
    assert literal == whole + "." + fraction;
    ParseFeeExact(whole, fraction);
    assert whole[..0] == [];
    CentDigitsValue(whole, fraction);
    assert Pow10(0) == 1;
    ValueOfTwoDigits(fraction);
  }

  /** The cents of `whole.fraction`: the whole part times 100 plus the fraction scaled to two places. */
  lemma CentDigitsValue(whole: string, fraction: string)
    requires AllDigits(whole) && AllDigits(fraction) && |fraction| <= 2
    ensures ValueOf(CentDigits(whole, fraction)) == ValueOf(whole) * 100 + ValueOf(fraction) * Pow10(2 - |fraction|)
  {
    var k := |fraction|;
    ValueOfConcat(whole, fraction);
    ValueOfConcat(whole + fraction, Zeros(2 - k));
    CentsFactor(k);
    ScaleSum(ValueOf(CentDigits(whole, fraction)), ValueOf(whole + fraction),
             ValueOf(whole), ValueOf(fraction), Pow10(k), Pow10(2 - k));
  }

  lemma CentsFactor(k: nat)
    requires k <= 2
    ensures Pow10(k) * Pow10(2 - k) == 100
  {
    assert Pow10(0) == 1 && Pow10(1) == 10 && Pow10(2) == 100;
  }

  /** Scaling `w·a + f` by `b`, where `a·b` is 100. */
  lemma ScaleSum(c: int, x: int, w: int, f: int, a: int, b: int)
    requires c == x * b && x == w * a + f && a * b == 100
    ensures c == w * 100 + f * b
  {
    calc {
      c;
      (w * a + f) * b;
      w * a * b + f * b;
      { assert w * a * b == w * (a * b); }
      w * 100 + f * b;
    }
  }

  // ---------------------------------------------------------------- one record

  /**
   * One record to one merchant. The checks run in the order cadence, id, date, fee, and the
   * first that fails decides the error; reference and email are copied as they are.
   */
  function ParseMerchantRecord(fields: seq<string>): Result<Merchant, NormalizeError>
    requires |fields| >= 6
  {
    match ParseFrequency(fields[4])
    case Failure(e) => Failure(e)
    case Success(frequency) =>
      match ParseUuid(fields[0])
      case None => Failure(InvalidId)
      case Some(id) =>
        match ParseDate(fields[3])
        case None => Failure(InvalidDate)
        case Some(liveOn) =>
          match ParseFee(fields[5])
          case None => Failure(InvalidFee)
          case Some(fee) => Success(Merchant(id, fields[1], fields[2], liveOn, frequency, fee))
  }

  /**
   * A parsed record is well formed; its reference and email are fields 1 and 2 verbatim, its
   * date renders back as field 3, and each other field parses to the value it holds.
   */
  lemma ParsedRecordFields(fields: seq<string>)
    requires |fields| >= 6 && ParseMerchantRecord(fields).Success?
    ensures var m := ParseMerchantRecord(fields).value;
      && WellFormed(m)
      && m.reference == fields[1] && m.email == fields[2]
      && FormatDate(m.liveOn) == fields[3]
      && ParseFrequency(fields[4]) == Success(m.frequency)
      && ParseUuid(fields[0]) == Some(m.id)
      && ParseFee(fields[5]) == Some(m.minimumMonthlyFee)
  {
    ParsedDateFormatsBack(fields[3]);
  }

  /** Error precedence within a record: cadence, then id, then date, then fee. */
  lemma ParseMerchantRecordPrecedence(fields: seq<string>)
    requires |fields| >= 6
    ensures ParseFrequency(fields[4]).Failure?
        ==> ParseMerchantRecord(fields) == Failure(UnknownFrequency(ToUpper(fields[4])))
    ensures ParseFrequency(fields[4]).Success? && ParseUuid(fields[0]).None?
        ==> ParseMerchantRecord(fields) == Failure(InvalidId)
    ensures ParseFrequency(fields[4]).Success? && ParseUuid(fields[0]).Some? && ParseDate(fields[3]).None?
        ==> ParseMerchantRecord(fields) == Failure(InvalidDate)
    ensures ParseFrequency(fields[4]).Success? && ParseUuid(fields[0]).Some? && ParseDate(fields[3]).Some?
            && ParseFee(fields[5]).None?
        ==> ParseMerchantRecord(fields) == Failure(InvalidFee)
    ensures ParseMerchantRecord(fields).Success?
        <==> ParseFrequency(fields[4]).Success? && ParseUuid(fields[0]).Some?
             && ParseDate(fields[3]).Some? && ParseFee(fields[5]).Some?
  {
  }

  // ---------------------------------------------------------------- the batch file

  /** What the CSV reader yields for one data record: its fields, or a read error. */
  datatype RecordRead = Record(fields: seq<string>) | Unreadable

  /** The batch file: absent, or a header record followed by data records. */
  datatype BatchSource = Missing | Batch(header: seq<string>, records: seq<RecordRead>)

  /**
   * The reader hands a record over only when it has as many fields as the header;
   * a record of another length, like an unreadable one, is a reader error.
   */
  function ReadRecord(header: seq<string>, rec: RecordRead): (r: Result<seq<string>, NormalizeError>)
    ensures r.Success? <==> rec.Record? && |rec.fields| == |header|
    ensures r.Success? ==> r.value == rec.fields
    ensures r.Failure? ==> r.error == CsvRecord
  {
    if rec.Record? && |rec.fields| == |header| then Success(rec.fields) else Failure(CsvRecord)
  }

  /**
   * The code indexes fields 0 to 5 of every record the reader hands over, so a header of
   * fewer than six columns must come without data records.
   */
  predicate Indexable(header: seq<string>, records: seq<RecordRead>) {
    forall i | 0 <= i < |records| :: ReadRecord(header, records[i]).Success? ==> |header| >= 6
  }

  predicate IndexableSource(source: BatchSource) {
    source.Batch? ==> Indexable(source.header, source.records)
  }

  /** One loop iteration: read the record, then parse it. */
  function NormalizeRecord(header: seq<string>, rec: RecordRead): Result<Merchant, NormalizeError>
    requires ReadRecord(header, rec).Success? ==> |header| >= 6
  {
    match ReadRecord(header, rec)
    case Failure(e) => Failure(e)
    case Success(fields) => ParseMerchantRecord(fields)
  }

  /** What each record, on its own, normalises to. */
  function RecordResults(header: seq<string>, records: seq<RecordRead>): (rs: seq<Result<Merchant, NormalizeError>>)
    requires Indexable(header, records)
    ensures |rs| == |records| && forall j | 0 <= j < |records| :: rs[j] == NormalizeRecord(header, records[j])
  {
    seq(|records|, j requires 0 <= j < |records| => NormalizeRecord(header, records[j]))
  }

  /** A record the reader hands over normalises to what its fields parse to. */
  lemma NormalizeReadRecord(header: seq<string>, rec: RecordRead)
    requires ReadRecord(header, rec).Success? ==> |header| >= 6
    requires ReadRecord(header, rec).Success?
    ensures NormalizeRecord(header, rec) == ParseMerchantRecord(ReadRecord(header, rec).value)
  {
  }

  /** All records in order; the first failing record's error is the result. */
  function NormalizeAll(header: seq<string>, records: seq<RecordRead>): Result<seq<Merchant>, NormalizeError>
    requires Indexable(header, records)
  {
    Collect(RecordResults(header, records))
  }

  /** The whole read: a missing file fails before any record is looked at. */
  function Normalized(source: BatchSource): Result<seq<Merchant>, NormalizeError>
    requires IndexableSource(source)
  {
    match source
    case Missing => Failure(FileUnreadable)
    case Batch(header, records) => NormalizeAll(header, records)
  }

  /** When every record normalises, the result is those merchants, one per record, in order. */
  lemma NormalizeAllSucceeds(header: seq<string>, records: seq<RecordRead>, ms: seq<Merchant>)
    requires Indexable(header, records)
    requires |ms| == |records|
    requires forall j | 0 <= j < |records| :: NormalizeRecord(header, records[j]) == Success(ms[j])
    ensures NormalizeAll(header, records) == Success(ms)
  {
    CollectSucceeds(RecordResults(header, records), ms);
  }

  /** The first failing record decides the result; later records are not looked at. */
  lemma NormalizeAllStops(header: seq<string>, records: seq<RecordRead>, k: nat)
    requires Indexable(header, records)
    requires k < |records| && NormalizeRecord(header, records[k]).Failure?
    requires forall j | 0 <= j < k :: NormalizeRecord(header, records[j]).Success?
    ensures NormalizeAll(header, records) == Failure(NormalizeRecord(header, records[k]).error)
  {
    CollectStops(RecordResults(header, records), k);
  }

  /** A successful read has one merchant per data record, each that record's own, in file order. */
  lemma NormalizeAllSuccess(header: seq<string>, records: seq<RecordRead>)
    requires Indexable(header, records) && NormalizeAll(header, records).Success?
    ensures |NormalizeAll(header, records).value| == |records|
    ensures forall j | 0 <= j < |records| ::
      NormalizeRecord(header, records[j]) == Success(NormalizeAll(header, records).value[j])
  {
    CollectSuccess(RecordResults(header, records));
  }

  /** A failed read is the error of some record all of whose predecessors were fine. */
  lemma NormalizeAllFailure(header: seq<string>, records: seq<RecordRead>)
    requires Indexable(header, records) && NormalizeAll(header, records).Failure?
    ensures exists k | 0 <= k < |records| ::
      (forall j | 0 <= j < k :: NormalizeRecord(header, records[j]).Success?)
      && NormalizeRecord(header, records[k]) == Failure(NormalizeAll(header, records).error)
  {
    var rs := RecordResults(header, records);
    CollectFailure(rs);
    var k :| 0 <= k < |rs| && (forall j | 0 <= j < k :: rs[j].Success?) && rs[k] == Failure(Collect(rs).error);
    assert forall j | 0 <= j < k :: NormalizeRecord(header, records[j]).Success?;
  }

  /** Every merchant of a successful read is well formed: a real date and an `i32` fee. */
  lemma NormalizedWellFormed(source: BatchSource)
    requires IndexableSource(source) && Normalized(source).Success?
    ensures forall m | m in Normalized(source).value :: WellFormed(m)
  {
    var header, records := source.header, source.records;
    var ms := Normalized(source).value;
    NormalizeAllSuccess(header, records);
    forall i | 0 <= i < |ms| ensures WellFormed(ms[i]) {
      ParsedRecordFields(ReadRecord(header, records[i]).value);
    }
  }

  /**
   * `read_and_normalize_merchants_from_csv`: pushes the merchant of each record in turn and
   * returns the first error as soon as one occurs.
   */
  method ReadAndNormalizeMerchants(source: BatchSource) returns (r: Result<seq<Merchant>, NormalizeError>)
    requires IndexableSource(source)
    ensures r == Normalized(source)
  {
    if source.Missing? {
      return Failure(FileUnreadable);
    }
    var header, records := source.header, source.records;
    ghost var results := RecordResults(header, records);
    var merchants: seq<Merchant> := [];
    var i := 0;
    while i < |records|
      invariant 0 <= i <= |records| && |merchants| == i
      invariant forall j | 0 <= j < i :: results[j] == Success(merchants[j])
    {
      var fields := ReadRecord(header, records[i]);
      if fields.Failure? {
        CollectStops(results, i);
        return Failure(fields.error);
      }
      var merchant := ParseMerchantRecord(fields.value);
      NormalizeReadRecord(header, records[i]);
      if merchant.Failure? {
        CollectStops(results, i);
        return Failure(merchant.error);
      }
      SuccessPrefixGrows(results, merchants, merchant.value);
      merchants := merchants + [merchant.value];
      i := i + 1;
    }
    CollectSucceeds(results, merchants);
    return Success(merchants);
  }
}
