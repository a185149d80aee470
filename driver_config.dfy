/**
 * Configuration records of device drivers: identifiers, directions, GPIO pins
 * and the normalisation of I2C addresses.
 */
module DriverConfig {
  import opened Wrappers
  import opened Text

  const IdentifierLength: nat := 64

  /** The pydantic `max_length` constraint on identifiers. */
  predicate ValidIdentifier(identifier: string)
  {
    |identifier| <= IdentifierLength
  }

  datatype DriverDirection = Input | Output | Bidirectional

  function DirectionValue(d: DriverDirection): string
  {
    match d
    case Input => "input"
    case Output => "output"
    case Bidirectional => "bidirectional"
  }

  function ParseDirection(s: string): (r: Option<DriverDirection>)
    ensures r.Some? ==> DirectionValue(r.value) == s
    ensures r.None? ==> forall d: DriverDirection :: DirectionValue(d) != s
  {
    if s == "input" then Some(Input)
    else if s == "output" then Some(Output)
    else if s == "bidirectional" then Some(Bidirectional)
    else None
  }

  /** The package built-in drivers live in; a bare module name is looked up there. */
  const BuiltinDriverPackage: string := "carlos.edge.device.driver"

  /**
   * The `driver_module` validator: the name is kept when it imports as given,
   * otherwise it is prefixed with the built-in package, and it is refused when
   * neither imports. `importable` stands for `importlib.import_module` succeeding.
   */
  function ResolveDriverModule(name: string, importable: string -> bool): (r: Option<string>)
    ensures r.Some? ==> importable(r.value)
    ensures r.None? <==> !importable(name) && !importable(BuiltinDriverPackage + "." + name)
  {
    if importable(name) then Some(name)
    else if importable(BuiltinDriverPackage + "." + name) then Some(BuiltinDriverPackage + "." + name)
    else None
  }

  /** A resolved module name resolves to itself. */
  lemma ResolveIdempotent(name: string, importable: string -> bool)
    requires ResolveDriverModule(name, importable).Some?
    ensures var m := ResolveDriverModule(name, importable).value;
      ResolveDriverModule(m, importable) == Some(m)
  {
  }

  /** What the address validator receives before pydantic sees the field: a text or an integer. */
  datatype AddressInput = AddressText(text: string) | AddressNumber(number: int)

  datatype AddressError = NotHexadecimal | OutOfRange

  const MinAddress: int := 0x03
  const MaxAddress: int := 0x77

  /**
   * The numeric value of an address input: a text loses one leading `0x` and
   * is then read as `int(text, 16)`, which itself still accepts surrounding
   * white space, a sign, a prefix and underscores.
   */
  function AddressNumberOf(v: AddressInput): (r: Option<int>)
    ensures v.AddressNumber? ==> r == Some(v.number)
  {
    match v
    case AddressNumber(n) => Some(n)
    case AddressText(s) =>
      var digits := if |s| >= 2 && s[..2] == "0x" then s[2..] else s;
      ParseHex(digits)
  }

  /** The range check shared by both address validators, before the value is formatted. */
  function CheckAddress(v: AddressInput): (r: Result<nat, AddressError>)
    ensures r.Ok? <==> AddressNumberOf(v).Some? && MinAddress <= AddressNumberOf(v).value <= MaxAddress
    ensures r.Ok? ==> r.value == AddressNumberOf(v).value
    ensures AddressNumberOf(v).None? ==> r == Err(NotHexadecimal)
  {
    match AddressNumberOf(v)
    case None => Err(NotHexadecimal)
    case Some(n) => if MinAddress <= n <= MaxAddress then Ok(n) else Err(OutOfRange)
  }

  /** `I2cDriverConfig.validate_address`: a valid address is stored as `0x` and two lower-case hex digits. */
  function ValidateAddress(v: AddressInput): (r: Result<string, AddressError>)
    ensures r.Ok? <==> CheckAddress(v).Ok?
    ensures r.Err? ==> r == Err(CheckAddress(v).error)
    ensures r.Ok? ==> |r.value| == 4 && r.value[..2] == "0x" && AllHexDigits(r.value[2..])
    ensures r.Ok? ==> AddressInt(r.value) == Some(CheckAddress(v).value)
  {
    match CheckAddress(v)
    case Err(e) => Err(e)
    case Ok(n) =>
      TwoHexDigits(n);
      ParseHexOfHex2(n);
      Ok("0x" + Hex2(n))
  }

  /**
   * The `address_int` property: the stored address read as `int(address, 16)`.
   * Only non-empty text reads as a number, and `0x` followed by hexadecimal
   * digits, the form the validator stores, reads as the digits' value.
   */
  function AddressInt(address: string): (r: Option<int>)
    ensures r.Some? ==> |address| >= 1
    ensures |address| >= 3 && address[..2] == "0x" && AllHexDigits(address[2..]) ==> r == Some(HexValue(address[2..]) as int)
  {
    if |address| >= 3 && address[..2] == "0x" && AllHexDigits(address[2..]) then
      ParseHexOfPrefixed(address[2..]);
      assert "0x" + address[2..] == address;
      ParseHex(address)
    else
      ParseHex(address)
  }

  lemma TwoHexDigits(n: nat)
    requires n < 256
    ensures |Hex2(n)| == 2
  {
    if n >= 16 {
      assert NatToHex(n) == NatToHex(n / 16) + [HexChar(n % 16)];
    }
  }

  /** Normalising an already normalised address changes nothing. */
  lemma ValidateAddressIdempotent(v: AddressInput)
    requires ValidateAddress(v).Ok?
    ensures ValidateAddress(AddressText(ValidateAddress(v).value)) == ValidateAddress(v)
  {
    var n := CheckAddress(v).value;
    assert ValidateAddress(v) == Ok("0x" + Hex2(n));
    NormalisedReadsBack(n);
  }

  /** The stored form of an address in range reads back as that address. */
  lemma NormalisedReadsBack(n: nat)
    requires MinAddress <= n <= MaxAddress
    ensures AddressNumberOf(AddressText("0x" + Hex2(n))) == Some(n)
  {
    PrefixedText("0x" + Hex2(n), Hex2(n));
    ParseHexOfDigits(Hex2(n));
    Hex2Value(n);
  }

  /** A text behind a `0x` prefix is read without it. */
  lemma PrefixedText(s: string, rest: string)
    requires s == "0x" + rest
    ensures AddressNumberOf(AddressText(s)) == ParseHex(rest)
  {
    assert s[..2] == "0x" && s[2..] == rest;
  }

  /** A text without a `0x` prefix is read as it stands. */
  lemma UnprefixedText(s: string)
    requires |s| >= 1 && s[0] != '0'
    ensures AddressNumberOf(AddressText(s)) == ParseHex(s)
  {
    assert |s| >= 2 ==> s[..2][0] == s[0];
  }

  /** A text address with or without its prefix normalises to the same text. */
  lemma TextAddressExamples()
    ensures ValidateAddress(AddressText("0x44")) == Ok("0x44")
    ensures ValidateAddress(AddressText("44")) == Ok("0x44")
  {
    HexOf44();
    PrefixedText("0x44", "44");
    UnprefixedText("44");
    ParseHexOfDigits("44");
    assert "0x" + Hex2(0x44) == "0x44";
  }

  /** Numbers are formatted with two digits; the reserved and the too-high values are refused. */
  lemma NumberAddressExamples()
    ensures ValidateAddress(AddressNumber(0x44)) == Ok("0x44")
    ensures ValidateAddress(AddressNumber(3)) == Ok("0x03")
    ensures ValidateAddress(AddressNumber(2)) == Err(OutOfRange)
    ensures ValidateAddress(AddressNumber(0x78)) == Err(OutOfRange)
  {
    HexOf44();
    assert "0x" + Hex2(0x44) == "0x44";
    assert NatToHex(3) == "3";
    assert Zeros(1) == "0";
    assert Hex2(3) == "03";
    assert "0x" + Hex2(3) == "0x03";
  }

  /** A text that is not hexadecimal after its prefix is refused as such. */
  lemma NotHexExample()
    ensures ValidateAddress(AddressText("0xzz")) == Err(NotHexadecimal)
  {
    PrefixedText("0xzz", "zz");
    NotHexRefused();
  }

  lemma NotHexRefused()
    ensures ParseHex("zz") == None
  {
    assert HexBody("zz") == "zz";
    assert !IsHexDigit("zz"[1]);
    ParseHexUnpadded("zz");
  }

  /** White space around an address text is ignored, as `int()` ignores it. */
  lemma PaddedAddressAccepted(a: string, s: string, b: string)
    requires |a| >= 1 && forall i :: 0 <= i < |a| ==> IsPythonSpace(a[i])
    requires forall i :: 0 <= i < |b| ==> IsPythonSpace(b[i])
    requires |s| >= 1
    ensures AddressNumberOf(AddressText(a + s + b)) == ParseHex(s)
  {
    assert (a + s + b)[0] == a[0];
    UnprefixedText(a + s + b);
    ParseHexIgnoresPadding(a, s, b);
  }

  /** A signed text is read with its sign: a minus gives a negative number, refused as out of range rather than as not hexadecimal. */
  lemma SignedAddressExamples(s: string)
    requires |s| >= 1 && AllHexDigits(s) && MinAddress <= HexValue(s) <= MaxAddress
    ensures CheckAddress(AddressText("+" + s)) == Ok(HexValue(s))
    ensures CheckAddress(AddressText("-" + s)) == Err(OutOfRange)
  {
    ParseHexOfSigned('+', s);
    ParseHexOfSigned('-', s);
    assert "+" + s == ['+'] + s && "-" + s == ['-'] + s;
    UnprefixedText("+" + s);
    UnprefixedText("-" + s);
  }

  /** Underscores between the digits are skipped: `4_4` is 0x44. */
  lemma UnderscoreAddressExample()
    ensures CheckAddress(AddressText("4_4")) == Ok(0x44)
  {
    UnderscoreExamples();
    ParseHexUnpadded("4_4");
    UnprefixedText("4_4");
  }

  lemma HexOf44()
    ensures NatToHex(0x44) == "44" && Hex2(0x44) == "44"
    ensures AllHexDigits("44") && HexValue("44") == 0x44
  {
    assert NatToHex(0x44) == NatToHex(4) + [HexChar(4)];
    assert "44"[..1] == "4";
    assert "4"[..0] == "";
  }

  /** The pins `GpioDriverConfig.pin` admits: the `Literal[2, ..., 27]` of the header's GPIO numbers. */
  predicate ValidPin(p: int) {
    2 <= p <= 27
  }

  /** A pin as it is stored once the field has been validated. */
  type Pin = p: int | ValidPin(p) witness 2

  datatype PinError = PinNotAllowed(pin: int)

  /** The `Literal` check of the `pin` field: any number outside 2..27 is refused and reported. */
  function ValidatePin(p: int): (r: Result<Pin, PinError>)
    ensures r.Ok? <==> ValidPin(p)
    ensures r.Ok? ==> r.value == p
    ensures r.Err? ==> r.error == PinNotAllowed(p)
  {
    if ValidPin(p) then Ok(p) else Err(PinNotAllowed(p))
  }

  /** The first and last admitted pins are accepted; their neighbours outside the range are refused. */
  lemma PinExamples()
    ensures ValidatePin(1) == Err(PinNotAllowed(1))
    ensures ValidatePin(2) == Ok(2)
    ensures ValidatePin(27) == Ok(27)
    ensures ValidatePin(28) == Err(PinNotAllowed(28))
    ensures ValidatePin(0).Err? && ValidatePin(-2).Err?
  {
  }

  /** Validation is the identity on a pin that was already validated, as `model_validate` of a stored record is. */
  lemma RevalidatePin(p: Pin)
    ensures ValidatePin(p) == Ok(p)
  {
  }

  /** The parts of a driver configuration the validators look at; a GPIO pin is a validated one. */
  datatype Protocol = Gpio(pin: Pin) | I2c(address: string) | OtherProtocol

  datatype DriverConfigRecord = DriverConfigRecord(
    identifier: string,
    driverModule: string,
    direction: Option<DriverDirection>,
    protocol: Protocol)

  /** Building a `GpioDriverConfig`: the record exists exactly when its pin is one of 2..27. */
  function GpioRecord(identifier: string, driverModule: string, direction: Option<DriverDirection>, pin: int): (r: Result<DriverConfigRecord, PinError>)
    ensures r.Ok? <==> ValidPin(pin)
    ensures r.Ok? ==> r.value.protocol.Gpio? && r.value.protocol.pin == pin
    ensures r.Ok? ==> r.value.identifier == identifier && r.value.driverModule == driverModule && r.value.direction == direction
    ensures r.Err? ==> r.error == PinNotAllowed(pin)
  {
    match ValidatePin(pin)
    case Err(e) => Err(e)
    case Ok(q) => Ok(DriverConfigRecord(identifier, driverModule, direction, Gpio(q)))
  }
}
