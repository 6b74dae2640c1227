/** Rate settings of the request throttle: how a configured text such as "10/min" becomes
    a rate, and how a request is mapped to the scope whose rates apply. */
module Rates {
  import opened Common

  datatype Unit = Second | Minute | Hour | Day {
    function Seconds(): (s: int)
      ensures 1 <= s
    {
      match this
      case Second => 1
      case Minute => 60
      case Hour => 3600
      case Day => 86400
    }
  }

  /** At most `num` requests per `unit`; `name` is the configured text itself. */
  datatype Rate = Rate(name: string, num: int, unit: Unit) {
    function Duration(): (d: real)
      ensures 1.0 <= d
    {
      unit.Seconds() as real
    }
  }

  /** One entry of DEFAULT_THROTTLE_RATES. */
  datatype Setting = Null | Text(text: string) | List(items: seq<Option<string>>) | Other

  datatype Failure = ImproperlyConfigured | BadRate

  // ---------- Python's int() and str.split on ASCII text ----------

  predicate IsSpace(c: char) {
    c == ' ' || 9 <= c as int <= 13 || 28 <= c as int <= 31
  }

  function DigitValue(c: char): nat
    requires IsDigit(c)
  {
    c as int - '0' as int
  }

  function Strip(s: string): string {
    if s != "" && IsSpace(s[0]) then Strip(s[1..])
    else if s != "" && IsSpace(s[|s| - 1]) then Strip(s[..|s| - 1])
    else s
  }

  /** Digits with single underscores allowed between two of them. */
  function Digits(s: string, acc: nat, afterDigit: bool): Option<nat> {
    if s == "" then
      if afterDigit then Some(acc) else None
    else if IsDigit(s[0]) then Digits(s[1..], 10 * acc + DigitValue(s[0]), true)
    else if s[0] == '_' && afterDigit then Digits(s[1..], acc, false)
    else None
  }

  function ParseInt(s: string): Option<int> {
    var t := Strip(s);
    if t != "" && t[0] in {'+', '-'} then
      match Digits(t[1..], 0, false)
      case None => None
      case Some(n) => Some(if t[0] == '-' then -(n as int) else n as int)
    else
      match Digits(t, 0, false)
      case None => None
      case Some(n) => Some(n)
  }

  function FirstSlash(s: string): (i: nat)
    ensures i <= |s|
    ensures '/' !in s[..i]
    ensures i < |s| ==> s[i] == '/'
  {
    if s == "" || s[0] == '/' then 0 else 1 + FirstSlash(s[1..])
  }

  function UnitOf(c: char): Option<Unit> {
    match c
    case 's' => Some(Second)
    case 'm' => Some(Minute)
    case 'h' => Some(Hour)
    case 'd' => Some(Day)
    case _ => None
  }

  /** Unpacking the split into two names, int() of the first and the lookup of the first
      letter of the second can each raise. */
  function ParseRate(text: string): Result<Rate, Failure> {
    var i := FirstSlash(text);
    if i == |text| || '/' in text[i + 1..] then Err(BadRate)
    else
      var period := text[i + 1..];
      match ParseInt(text[..i])
      case None => Err(BadRate)
      case Some(num) =>
        if period == "" then Err(BadRate)
        else
          match UnitOf(period[0])
          case None => Err(BadRate)
          case Some(unit) => Ok(Rate(text, num, unit))
  }

  /** `None` inside a list parses to `None`, which the admission loop trips over later. */
  function ParseItems(items: seq<Option<string>>): Result<seq<Option<Rate>>, Failure> {
    if items == [] then Ok([])
    else
      match items[0]
      case None =>
        (match ParseItems(items[1..])
         case Err(e) => Err(e)
         case Ok(rest) => Ok([None] + rest))
      case Some(text) =>
        (match ParseRate(text)
         case Err(e) => Err(e)
         case Ok(rate) =>
           match ParseItems(items[1..])
           case Err(e) => Err(e)
           case Ok(rest) => Ok([Some(rate)] + rest))
  }

  function GetRates(config: map<string, Setting>, scope: string): Result<seq<Option<Rate>>, Failure> {
    if scope !in config then Err(ImproperlyConfigured)
    else
      match config[scope]
      case Null => Ok([])
      case Text(text) => ParseItems([Some(text)])
      case List(items) => ParseItems(items)
      case Other => Err(ImproperlyConfigured)
  }

  ghost predicate NoUnderscore(s: string) {
    '_' !in s
  }

  function GetScope(authenticated: bool, httpMethod: string): (scope: string)
    ensures NoUnderscore(scope)
    ensures scope != "" && (scope[0] == 'u' <==> authenticated)
    ensures httpMethod in {"POST", "PUT", "PATCH", "DELETE"} <==> 'w' in scope
  {
    var suffix := if httpMethod in {"POST", "PUT", "PATCH", "DELETE"} then "-write" else "-read";
    if authenticated then "user" + suffix else "anon" + suffix
  }

  // ---------- parsing inverts printing ----------

  function Decimal(n: nat): (s: string)
    ensures |s| >= 1
    ensures forall c | c in s :: IsDigit(c)
  {
    var last := [(n % 10 + '0' as int) as char];
    if n < 10 then last else Decimal(n / 10) + last
  }

  function PrintInt(n: int): string {
    if n < 0 then "-" + Decimal(-n) else Decimal(n)
  }

  lemma {:induction false} DigitsSnoc(s: string, c: char, acc: nat, afterDigit: bool)
    requires forall x | x in s + [c] :: IsDigit(x)
    ensures s != "" ==> Digits(s, acc, afterDigit).Some?
    ensures Digits(s + [c], acc, afterDigit)
         == Some(10 * (if s == "" then acc else Digits(s, acc, afterDigit).value) + DigitValue(c))
  {
    if s == "" {
      assert (s + [c])[1..] == "";
      assert IsDigit((s + [c])[0]);
      assert Digits("", 10 * acc + DigitValue(c), true) == Some(10 * acc + DigitValue(c));
    } else {
      assert s[0] in s + [c];
      assert (s + [c])[1..] == s[1..] + [c];
      forall x | x in s[1..] + [c] ensures IsDigit(x) { assert x in s + [c]; }
      DigitsSnoc(s[1..], c, 10 * acc + DigitValue(s[0]), true);
    }
  }

  lemma {:induction false} DigitsDecimal(n: nat)
    ensures Digits(Decimal(n), 0, false) == Some(n)
  {
    var c := (n % 10 + '0' as int) as char;
    if n < 10 {
      DigitsSnoc("", c, 0, false);
      assert "" + [c] == Decimal(n);
    } else {
      DigitsDecimal(n / 10);
      forall x | x in Decimal(n / 10) + [c] ensures IsDigit(x) { assert x in Decimal(n); }
      DigitsSnoc(Decimal(n / 10), c, 0, false);
    }
  }

  lemma ParseDecimal(n: nat)
    ensures ParseInt(Decimal(n)) == Some(n)
  {
    var digits := Decimal(n);
    DigitsDecimal(n);
    assert digits[0] in digits && digits[|digits| - 1] in digits;
    assert Strip(digits) == digits;
  }

  lemma ParseNegative(n: int)
    requires n < 0
    ensures ParseInt("-" + Decimal(-n)) == Some(n)
  {
    var digits := Decimal(-n);
    var s := "-" + digits;
    DigitsDecimal(-n);
    assert s[|s| - 1] == digits[|digits| - 1] && digits[|digits| - 1] in digits;
    assert Strip(s) == s;
    assert s[1..] == digits;
  }

  lemma ParseIntPrintInt(n: int)
    ensures ParseInt(PrintInt(n)) == Some(n)
    ensures '/' !in PrintInt(n)
  {
    if n < 0 {
      ParseNegative(n);
    } else {
      ParseDecimal(n);
    }
  }

  lemma FirstSlashAt(a: string, b: string)
    requires '/' !in a
    ensures FirstSlash(a + "/" + b) == |a|
  {
    var s := a + "/" + b;
    assert s[|a|] == '/';
    assert forall k | 0 <= k < |a| :: s[k] == a[k] && s[k] != '/';
  }

  lemma TextParts(head: string, letter: char, word: string)
    requires '/' !in head
    ensures var text := head + "/" + [letter] + word;
            FirstSlash(text) == |head| && text[..|head|] == head && text[|head| + 1..] == [letter] + word
  {
    assert head + "/" + [letter] + word == head + "/" + ([letter] + word);
    FirstSlashAt(head, [letter] + word);
  }

  /** Every count and every period word starting with one of the four letters is accepted
      and read back as configured. */
  lemma ParseRateRoundTrip(num: int, unit: Unit, letter: char, word: string)
    requires UnitOf(letter) == Some(unit)
    requires '/' !in word
    ensures var text := PrintInt(num) + "/" + [letter] + word;
            ParseRate(text) == Ok(Rate(text, num, unit))
  {
    ParseIntPrintInt(num);
    TextParts(PrintInt(num), letter, word);
    RateOfParts(PrintInt(num) + "/" + [letter] + word, PrintInt(num), [letter] + word, num, unit);
  }

  lemma RateOfParts(text: string, head: string, period: string, num: int, unit: Unit)
    requires FirstSlash(text) == |head| < |text| && text[..|head|] == head && text[|head| + 1..] == period
    requires ParseInt(head) == Some(num) && '/' !in period && period != "" && UnitOf(period[0]) == Some(unit)
    ensures ParseRate(text) == Ok(Rate(text, num, unit))
  {
  }

  /** A parsed rate is determined by its own name, so two rates with one name are equal. */
  lemma {:induction false} ParsedByName(items: seq<Option<string>>, rates: seq<Option<Rate>>, i: nat)
    requires ParseItems(items) == Ok(rates)
    ensures |rates| == |items|
    ensures i < |rates| && rates[i].Some? ==> ParseRate(rates[i].value.name) == Ok(rates[i].value)
  {
    if items != [] {
      ParsedByName(items[1..], rates[1..], if i == 0 then 0 else i - 1);
    }
  }

  // ---------- what a setting means ----------

  /** The length of a period by its first letter, in seconds. */
  lemma PeriodLengths(rate: Rate)
    ensures UnitOf('s') == Some(rate.unit) ==> rate.Duration() == 1.0
    ensures UnitOf('m') == Some(rate.unit) ==> rate.Duration() == 60.0
    ensures UnitOf('h') == Some(rate.unit) ==> rate.Duration() == 3600.0
    ensures UnitOf('d') == Some(rate.unit) ==> rate.Duration() == 86400.0
  {
  }

  /** Item by item: a list setting gives its items' rates in order, null for null, and raises when
      some text does not parse. */
  lemma {:induction false} ItemRates(items: seq<Option<string>>)
    ensures ParseItems(items).Ok? <==> forall i | 0 <= i < |items| :: items[i].Some? ==> ParseRate(items[i].value).Ok?
    ensures ParseItems(items).Ok? ==>
      |ParseItems(items).value| == |items|
      && forall i | 0 <= i < |items| ::
           ParseItems(items).value[i]
           == if items[i].Some? && ParseRate(items[i].value).Ok? then Some(ParseRate(items[i].value).value) else None
  {
    if items != [] {
      ItemRates(items[1..]);
      assert forall i | 1 <= i < |items| :: items[i] == items[1..][i - 1];
    }
  }

  /** A text setting "n/c..." gives one rate of n requests per second, minute, hour or day. */
  lemma TextRate(config: map<string, Setting>, scope: string, num: int, letter: char, word: string)
    requires letter in {'s', 'm', 'h', 'd'} && '/' !in word
    requires scope in config && config[scope] == Text(PrintInt(num) + "/" + [letter] + word)
    ensures GetRates(config, scope).Ok? && |GetRates(config, scope).value| == 1
    ensures var rate := GetRates(config, scope).value[0];
            && rate.Some? && rate.value.name == config[scope].text && rate.value.num == num
            && (letter == 's' ==> rate.value.Duration() == 1.0)
            && (letter == 'm' ==> rate.value.Duration() == 60.0)
            && (letter == 'h' ==> rate.value.Duration() == 3600.0)
            && (letter == 'd' ==> rate.value.Duration() == 86400.0)
  {
    ParseRateRoundTrip(num, UnitOf(letter).value, letter, word);
    PeriodLengths(ParseRate(config[scope].text).value);
    ItemRates([Some(config[scope].text)]);
  }

  /** Null settings give no rate, list settings the rates of their items; a missing scope or any
      other value is a configuration error. */
  lemma SettingRates(config: map<string, Setting>, scope: string)
    ensures scope !in config ==> GetRates(config, scope) == Err(ImproperlyConfigured)
    ensures scope in config && config[scope] == Other ==> GetRates(config, scope) == Err(ImproperlyConfigured)
    ensures scope in config && config[scope] == Null ==> GetRates(config, scope) == Ok([])
    ensures scope in config && config[scope].List? ==>
      var items := config[scope].items;
      && (GetRates(config, scope).Ok? <==>
            forall i | 0 <= i < |items| :: items[i].Some? ==> ParseRate(items[i].value).Ok?)
      && (GetRates(config, scope).Ok? ==>
            |GetRates(config, scope).value| == |items|
            && forall i | 0 <= i < |items| ::
                 (items[i] == None ==> GetRates(config, scope).value[i] == None)
                 && (items[i].Some? ==> Ok(GetRates(config, scope).value[i]) == Parsed(items[i].value)))
  {
    if scope in config && config[scope].List? {
      ItemRates(config[scope].items);
    }
  }

  function Parsed(text: string): Result<Option<Rate>, Failure> {
    match ParseRate(text)
    case Err(e) => Err(e)
    case Ok(rate) => Ok(Some(rate))
  }
}
