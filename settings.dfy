/** The companion `sim-settings.txt` file: each setting is found by a regular
    expression search for `<key><token>` anywhere in the file text, and its
    value is the captured token. A key whose search finds nothing is fatal
    (the script calls `.groups()` on None). */
module Settings {
  import opened Common

  predicate IsDigit(c: char)
  {
    '0' <= c <= '9'
  }

  /** The capture group that follows a key: `[0-9]+`, `[0-1]` or `\d+\.\d+`. */
  datatype Token = Digits | Bit | Fraction

  /** Length of the run of digits at the start of s. */
  function DigitRun(s: string): (n: nat)
    ensures n <= |s|
    ensures forall i :: 0 <= i < n ==> IsDigit(s[i])
    ensures n < |s| ==> !IsDigit(s[n])
  {
    if |s| > 0 && IsDigit(s[0]) then 1 + DigitRun(s[1..]) else 0
  }

  /** Length of the greedy match of the token at the start of s; None when
      the token does not match there. */
  function TokenLength(s: string, t: Token): (r: Option<nat>)
    ensures r.Some? ==> 0 < r.value <= |s|
    ensures t == Digits ==> (r.Some? <==> |s| > 0 && IsDigit(s[0]))
    ensures t == Digits && r.Some? ==> r.value == DigitRun(s)
    ensures t == Bit ==> (r.Some? <==> |s| > 0 && (s[0] == '0' || s[0] == '1'))
    ensures t == Bit && r.Some? ==> r.value == 1
  {
    match t
    case Digits =>
      var n := DigitRun(s);
      if n > 0 then Some(n) else None
    case Bit =>
      if |s| > 0 && (s[0] == '0' || s[0] == '1') then Some(1) else None
    case Fraction =>
      var n := DigitRun(s);
      if 0 < n < |s| && s[n] == '.' && DigitRun(s[n + 1..]) > 0
      then Some(n + 1 + DigitRun(s[n + 1..]))
      else None
  }

  /** The pattern `key` followed by the token matches at position i. */
  predicate MatchAt(text: string, key: string, t: Token, i: nat)
  {
    i + |key| <= |text| && text[i..i + |key|] == key && TokenLength(text[i + |key|..], t).Some?
  }

  /** The leftmost match position at or after `from`, as `re.search` scans. */
  function FirstMatch(text: string, key: string, t: Token, from: nat): (r: Option<nat>)
    decreases |text| - from
    ensures r.Some? ==> from <= r.value && MatchAt(text, key, t, r.value)
    ensures r.Some? ==> forall j :: from <= j < r.value ==> !MatchAt(text, key, t, j)
    ensures r.None? ==> forall j :: from <= j ==> !MatchAt(text, key, t, j)
  {
    if from >= |text| then None
    else if MatchAt(text, key, t, from) then Some(from)
    else FirstMatch(text, key, t, from + 1)
  }

  /** The text of the token captured by a match at position i. */
  function Captured(text: string, key: string, t: Token, i: nat): string
    requires MatchAt(text, key, t, i)
  {
    var rest := text[i + |key|..];
    rest[..TokenLength(rest, t).value]
  }

  /** `re.search(key + "(" + token + ")", text).groups()[0]`; None when the
      search finds nothing. */
  function Search(text: string, key: string, t: Token): (r: Option<string>)
    ensures r.None? <==> forall j: nat :: !MatchAt(text, key, t, j)
    ensures r.Some? ==> exists i: nat :: MatchAt(text, key, t, i)
                          && (forall j: nat :: j < i ==> !MatchAt(text, key, t, j))
                          && r.value == Captured(text, key, t, i)
  {
    match FirstMatch(text, key, t, 0)
    case None => None
    case Some(i) => Some(Captured(text, key, t, i))
  }

  /** Python's `int(d)` for a string of ASCII digits. */
  function DecimalValue(d: string): nat
  {
    if |d| == 0 then 0
    else DecimalValue(d[..|d| - 1]) * 10 + DigitValue(d[|d| - 1])
  }

  function DigitValue(c: char): nat
  {
    if IsDigit(c) then (c as int) - ('0' as int) else 0
  }

  /** The decimal text of n, as the simulator writes it. */
  function Decimal(n: nat): (d: string)
    ensures |d| > 0 && forall i :: 0 <= i < |d| ==> IsDigit(d[i])
  {
    if n < 10 then [('0' as int + n) as char]
    else Decimal(n / 10) + [('0' as int + n % 10) as char]
  }

  lemma {:induction false} DecimalRoundTrip(n: nat)
    ensures DecimalValue(Decimal(n)) == n
  {
    var d := Decimal(n);
    if n >= 10 {
      assert d[..|d| - 1] == Decimal(n / 10);
      DecimalRoundTrip(n / 10);
    }
  }

  /** A key followed by a number, with no match earlier in the text, reads
      back as exactly that number. */
  lemma SearchFindsNumber(pre: string, key: string, n: nat, post: string)
    requires post == [] || !IsDigit(post[0])
    requires forall j: nat :: j < |pre| ==> !MatchAt(pre + key + Decimal(n) + post, key, Digits, j)
    ensures Search(pre + key + Decimal(n) + post, key, Digits) == Some(Decimal(n))
    ensures DecimalValue(Search(pre + key + Decimal(n) + post, key, Digits).value) == n
  {
    var text := pre + key + Decimal(n) + post;
    var d := Decimal(n);
    var p := |pre|;
    assert text[p..p + |key|] == key;
    var rest := text[p + |key|..];
    assert rest == d + post;
    RunOfDigits(d, post);
    assert rest[0] == d[0];
    assert TokenLength(rest, Digits) == Some(|d|);
    assert MatchAt(text, key, Digits, p);
    var r := FirstMatch(text, key, Digits, 0);
    assert r.Some? && r.value <= p;
    assert r.value == p;
    assert Captured(text, key, Digits, p) == d by {
      assert rest[..|d|] == d;
    }
    DecimalRoundTrip(n);
  }

  lemma {:induction false} RunOfDigits(d: string, post: string)
    requires forall i :: 0 <= i < |d| ==> IsDigit(d[i])
    requires post == [] || !IsDigit(post[0])
    ensures DigitRun(d + post) == |d|
  {
    if |d| > 0 {
      assert (d + post)[1..] == d[1..] + post;
      RunOfDigits(d[1..], post);
    } else {
      assert d + post == post;
    }
  }

  datatype SettingsError = MissingSetting(key: string)

  /** The settings the PHY parsers attach to every output row. */
  datatype PhySettings = PhySettings(usDataPeriod: nat, nGateways: nat, nEndDevices: nat, seed: nat)

  /** One integer setting: the digits after the first `key`. */
  function IntSetting(text: string, key: string): (r: Result<nat, SettingsError>)
    ensures r.Err? <==> forall j: nat :: !MatchAt(text, key, Digits, j)
    ensures r.Err? ==> r.error == MissingSetting(key)
    ensures r.Ok? ==> Search(text, key, Digits).Some? && r.value == DecimalValue(Search(text, key, Digits).value)
  {
    match Search(text, key, Digits)
    case None => Err(MissingSetting(key))
    case Some(d) => Ok(DecimalValue(d))
  }

  /** The four settings of the PHY parsers, searched in the script's order. */
  function ParsePhySettings(text: string): (r: Result<PhySettings, SettingsError>)
    ensures r.Ok? <==> IntSetting(text, "usDataPeriod = ").Ok? && IntSetting(text, "nGateways = ").Ok?
                        && IntSetting(text, "nEndDevices = ").Ok? && IntSetting(text, "seed = ").Ok?
    ensures r.Ok? ==> r.value == PhySettings(IntSetting(text, "usDataPeriod = ").value,
                                             IntSetting(text, "nGateways = ").value,
                                             IntSetting(text, "nEndDevices = ").value,
                                             IntSetting(text, "seed = ").value)
  {
    var period :- IntSetting(text, "usDataPeriod = ");
    var gateways :- IntSetting(text, "nGateways = ");
    var devices :- IntSetting(text, "nEndDevices = ");
    var seed :- IntSetting(text, "seed = ");
    Ok(PhySettings(period, gateways, devices, seed))
  }

  /** The parameter of the data-rate assignment method: unset (-1 in the
      script), the PER limit text of method 0 (kept unparsed), or the fixed
      data-rate index of method 2. */
  datatype DrMethodParam = Unset | PerLimit(text: string) | FixedDataRate(index: nat)

  /** The settings the MAC parser attaches to every output row. */
  datatype MacSettings = MacSettings(
    nGateways: nat, nEndDevices: nat, totalTime: nat, usConfirmedData: nat,
    usDataPeriod: nat, seed: nat, drCalcMethod: nat, drCalcMethodMisc: DrMethodParam)

  function DrMethodParamOf(text: string, drMethod: nat): (r: Result<DrMethodParam, SettingsError>)
    ensures drMethod != 0 && drMethod != 2 ==> r == Ok(Unset)
    ensures drMethod == 0 ==> (r.Ok? <==> Search(text, "PER limit = ", Fraction).Some?)
    ensures drMethod == 0 && r.Ok? ==> r.value == PerLimit(Search(text, "PER limit = ", Fraction).value)
    ensures drMethod == 2 ==> (r.Ok? <==> Search(text, "Fixed Data Rate Index = ", Digits).Some?)
    ensures drMethod == 2 && r.Ok? ==> r.value == FixedDataRate(IntSetting(text, "Fixed Data Rate Index = ").value)
    ensures r.Err? ==> r.error == MissingSetting(if drMethod == 0 then "PER limit = " else "Fixed Data Rate Index = ")
  {
    if drMethod == 0 then
      match Search(text, "PER limit = ", Fraction)
      case None => Err(MissingSetting("PER limit = "))
      case Some(d) => Ok(PerLimit(d))
    else if drMethod == 2 then
      var index :- IntSetting(text, "Fixed Data Rate Index = ");
      Ok(FixedDataRate(index))
    else Ok(Unset)
  }

  /** A setting whose value is one `0` or `1`. */
  function BitSetting(text: string, key: string): (r: Result<nat, SettingsError>)
    ensures r.Err? <==> Search(text, key, Bit).None?
    ensures r.Err? ==> r.error == MissingSetting(key)
    ensures r.Ok? ==> r.value <= 1
    ensures r.Ok? ==> Search(text, key, Bit).Some? && r.value == DecimalValue(Search(text, key, Bit).value)
  {
    match FirstMatch(text, key, Bit, 0)
    case None => Err(MissingSetting(key))
    case Some(i) =>
      var b := Captured(text, key, Bit, i);
      var c := text[i + |key|];
      assert b == [c] && (c == '0' || c == '1');
      assert b[..0] == [];
      assert DecimalValue(b) == DigitValue(c);
      Ok(DecimalValue(b))
  }

  const MethodKey := "Data rate assignment method index: "

  /** The MAC parser's settings, searched in the script's order; every
      searched key must be present, and the method parameter is searched
      only for methods 0 and 2. */
  function ParseMacSettings(text: string): (r: Result<MacSettings, SettingsError>)
    ensures r.Ok? <==> IntSetting(text, "nGateways = ").Ok? && IntSetting(text, "nEndDevices = ").Ok?
                        && IntSetting(text, "totalTime = ").Ok? && BitSetting(text, "usConfirmedData = ").Ok?
                        && IntSetting(text, "usDataPeriod = ").Ok? && IntSetting(text, "seed = ").Ok?
                        && IntSetting(text, MethodKey).Ok?
                        && DrMethodParamOf(text, IntSetting(text, MethodKey).value).Ok?
    ensures r.Ok? ==> r.value == MacSettings(IntSetting(text, "nGateways = ").value,
                                             IntSetting(text, "nEndDevices = ").value,
                                             IntSetting(text, "totalTime = ").value,
                                             BitSetting(text, "usConfirmedData = ").value,
                                             IntSetting(text, "usDataPeriod = ").value,
                                             IntSetting(text, "seed = ").value,
                                             IntSetting(text, MethodKey).value,
                                             DrMethodParamOf(text, IntSetting(text, MethodKey).value).value)
    ensures r.Ok? ==> r.value.usConfirmedData <= 1
    ensures r.Ok? ==> (r.value.drCalcMethod == 0 <==> r.value.drCalcMethodMisc.PerLimit?)
    ensures r.Ok? ==> (r.value.drCalcMethod == 2 <==> r.value.drCalcMethodMisc.FixedDataRate?)
    ensures IntSetting(text, "nGateways = ").Err? ==> r == Err(MissingSetting("nGateways = "))
  {
    var gateways :- IntSetting(text, "nGateways = ");
    var devices :- IntSetting(text, "nEndDevices = ");
    var total :- IntSetting(text, "totalTime = ");
    var confirmed :- BitSetting(text, "usConfirmedData = ");
    var period :- IntSetting(text, "usDataPeriod = ");
    var seed :- IntSetting(text, "seed = ");
    var drMethod :- IntSetting(text, MethodKey);
    var param :- DrMethodParamOf(text, drMethod);
    Ok(MacSettings(gateways, devices, total, confirmed, period, seed, drMethod, param))
  }
}
