/**
 * The older device configuration model: a list of GPIO and I2C entries and its
 * overlap validator, modelled as the code behaves, quirks included.
 */
module DeviceConfig {
  import opened Wrappers
  import opened Text
  import opened Uniqueness
  import DriverConfig

  /** `I2CConfig.validate_address`: the same checks as the driver configuration, formatted with `hex()`, so without zero padding. */
  function ValidateAddress(v: DriverConfig.AddressInput): (r: Result<string, DriverConfig.AddressError>)
    ensures r.Ok? <==> DriverConfig.CheckAddress(v).Ok?
    ensures r.Err? ==> r == Err(DriverConfig.CheckAddress(v).error)
    ensures r.Ok? ==> |r.value| >= 3 && r.value[..2] == "0x" && (|r.value| > 3 ==> r.value[2] != '0')
    ensures r.Ok? ==> DriverConfig.AddressInt(r.value) == Some(DriverConfig.CheckAddress(v).value)
  {
    match DriverConfig.CheckAddress(v)
    case Err(e) => Err(e)
    case Ok(n) =>
      ParseHexOfHex(n);
      assert ("0x" + NatToHex(n))[2..] == NatToHex(n);
      Ok("0x" + NatToHex(n))
  }

  /** Both validators accept the same inputs and agree on the number; they differ in text below 0x10. */
  lemma AddressFormsAgree(v: DriverConfig.AddressInput)
    ensures ValidateAddress(v).Ok? <==> DriverConfig.ValidateAddress(v).Ok?
    ensures ValidateAddress(v).Ok? ==>
      DriverConfig.AddressInt(ValidateAddress(v).value) == DriverConfig.AddressInt(DriverConfig.ValidateAddress(v).value)
    ensures ValidateAddress(DriverConfig.AddressNumber(3)) == Ok("0x3")
  {
    assert NatToHex(3) == "3";
    assert "0x" + NatToHex(3) == "0x3";
  }

  datatype IoDirection = IoInput | IoOutput

  /** An entry of `DeviceConfig.io`: GPIO entries carry an identifier and a pin from 2..27, I2C entries have none. */
  datatype IoConfig =
    | GpioIo(identifier: string, direction: IoDirection, pin: DriverConfig.Pin)
    | I2cIo(address: string)

  const I2cPins: set<int> := {2, 3}

  /** Building a `GpioConfig` entry: it exists exactly when its pin is one of 2..27. */
  function GpioEntry(identifier: string, direction: IoDirection, pin: int): (r: Result<IoConfig, DriverConfig.PinError>)
    ensures r.Ok? <==> DriverConfig.ValidPin(pin)
    ensures r.Ok? ==> r.value.GpioIo? && r.value.identifier == identifier && r.value.direction == direction && r.value.pin == pin
    ensures r.Err? ==> r.error == DriverConfig.PinNotAllowed(pin)
  {
    match DriverConfig.ValidatePin(pin)
    case Err(e) => Err(e)
    case Ok(q) => Ok(GpioIo(identifier, direction, q))
  }

  datatype ConfigError =
    | DuplicatePins(pins: seq<int>)
    | PinsReservedForI2c
    | DuplicateAddresses(addresses: seq<string>)
    | DuplicateIdentifiers(identifiers: seq<string>)
    | MissingIdentifier

  function GpioPins(io: seq<IoConfig>): (pins: seq<int>)
    ensures |pins| <= |io|
    ensures forall p :: p in pins <==> exists i :: 0 <= i < |io| && io[i].GpioIo? && io[i].pin == p
    ensures forall i :: 0 <= i < |pins| ==> DriverConfig.ValidPin(pins[i])
  {
    if |io| == 0 then []
    else (if io[0].GpioIo? then [io[0].pin] else []) + GpioPins(io[1..])
  }

  function I2cEntries(io: seq<IoConfig>): (entries: seq<IoConfig>)
    ensures forall e :: e in entries ==> e.I2cIo?
    ensures entries == [] <==> forall i :: 0 <= i < |io| ==> !io[i].I2cIo?
  {
    if |io| == 0 then []
    else (if io[0].I2cIo? then [io[0]] else []) + I2cEntries(io[1..])
  }

  /**
   * Python's `==` between a `str` and a pydantic model instance: the model
   * declines to compare with a non-model and so does `str`, so the result is
   * `False` whatever the values.
   */
  predicate StrEqualsModel(s: string, c: IoConfig)
  {
    false
  }

  /** The truth value of `seen_addresses.add(...)`, which returns `None`. */
  const SetAddIsTruthy: bool := false

  /**
   * The condition of the I2C duplicate comprehension as written: the address
   * text is looked for among the configuration objects, not among the seen
   * addresses.
   */
  predicate AddressTestAsWritten(address: string, i2cConfigs: seq<IoConfig>)
  {
    (exists c :: c in i2cConfigs && StrEqualsModel(address, c)) || SetAddIsTruthy
  }

  /** The I2C duplicate comprehension as written: it walks the entries, growing the seen set, and reports nothing. */
  method I2cDuplicatesAsWritten(i2cConfigs: seq<IoConfig>) returns (dups: seq<string>)
    requires forall e :: e in i2cConfigs ==> e.I2cIo?
    ensures dups == []
  {
    var seen: set<string> := {};
    dups := [];
    for i := 0 to |i2cConfigs|
      invariant dups == []
    {
      var address := i2cConfigs[i].address;
      if AddressTestAsWritten(address, i2cConfigs) {
        dups := dups + [address];
      }
      seen := seen + {address};
    }
  }

  /** Two entries with the same address are not reported as duplicates. */
  lemma I2cDuplicateNeverFires(address: string)
    ensures !AddressTestAsWritten(address, [I2cIo(address), I2cIo(address)])
  {
  }

  /** The identifier comprehension: it stops with an `AttributeError` at the first I2C entry. */
  function IdentifierCheck(io: seq<IoConfig>): (r: Result<seq<string>, ConfigError>)
    ensures r.Err? <==> exists i :: 0 <= i < |io| && io[i].I2cIo?
    ensures r.Err? ==> r.error == MissingIdentifier
    ensures r.Ok? ==> r.value == Duplicates(Identifiers(io))
  {
    if exists i :: 0 <= i < |io| && io[i].I2cIo? then Err(MissingIdentifier)
    else Ok(Duplicates(Identifiers(io)))
  }

  function Identifiers(io: seq<IoConfig>): (ids: seq<string>)
    requires forall i :: 0 <= i < |io| ==> io[i].GpioIo?
    ensures |ids| == |io| && forall i :: 0 <= i < |io| ==> ids[i] == io[i].identifier
  {
    if |io| == 0 then [] else [io[0].identifier] + Identifiers(io[1..])
  }

  /** The checks of `_validate_address_or_pin_overlap`, in the order they run. */
  function OverlapCheck(io: seq<IoConfig>): Result<(), ConfigError>
  {
    var pins := GpioPins(io);
    if Duplicates(pins) != [] then Err(DuplicatePins(Duplicates(pins)))
    else if I2cEntries(io) != [] && (exists p :: p in pins && p in I2cPins) then Err(PinsReservedForI2c)
    else match IdentifierCheck(io)
      case Err(e) => Err(e)
      case Ok(dups) => if dups != [] then Err(DuplicateIdentifiers(dups)) else Ok(())
  }

  /** The reserved-pin test: is any GPIO pin one the I2C bus needs? */
  method UsesI2cPin(pins: seq<int>) returns (found: bool)
    ensures found <==> exists p :: p in pins && p in I2cPins
  {
    found := false;
    var k := 0;
    while k < |pins|
      invariant 0 <= k <= |pins|
      invariant forall j :: 0 <= j < k ==> pins[j] !in I2cPins
    {
      if pins[k] in I2cPins {
        return true;
      }
      k := k + 1;
    }
  }

  /**
   * The identifier comprehension: reading `identifier` of an I2C entry raises,
   * which ends the walk; on a GPIO-only list the seen-set walk runs to the end.
   */
  method CollectIdentifierDuplicates(io: seq<IoConfig>) returns (r: Result<seq<string>, ConfigError>)
    ensures r == IdentifierCheck(io)
  {
    var i := 0;
    while i < |io|
      invariant 0 <= i <= |io|
      invariant forall j :: 0 <= j < i ==> io[j].GpioIo?
    {
      if io[i].I2cIo? {
        return Err(MissingIdentifier);
      }
      i := i + 1;
    }
    var dups := CollectDuplicates(Identifiers(io));
    return Ok(dups);
  }

  /** The validator, walking the list with its seen sets as the comprehensions do. */
  method ValidateOverlap(io: seq<IoConfig>) returns (r: Result<(), ConfigError>)
    ensures r == OverlapCheck(io)
  {
    var pins := GpioPins(io);
    var duplicatePins := CollectDuplicates(pins);
    if duplicatePins != [] {
      return Err(DuplicatePins(duplicatePins));
    }
    var i2cConfigs := I2cEntries(io);
    if i2cConfigs != [] {
      var reserved := UsesI2cPin(pins);
      if reserved {
        return Err(PinsReservedForI2c);
      }
    }
    var duplicateAddresses := I2cDuplicatesAsWritten(i2cConfigs);
    if duplicateAddresses != [] {
      return Err(DuplicateAddresses(duplicateAddresses));
    }
    var ids := CollectIdentifierDuplicates(io);
    match ids
    case Err(e) => return Err(e);
    case Ok(dups) =>
      if dups != [] {
        return Err(DuplicateIdentifiers(dups));
      }
      return Ok(());
  }

  /** A list with GPIO entries only is accepted exactly when its pins and its identifiers are unique. */
  lemma GpioOnlyAcceptedIff(io: seq<IoConfig>)
    requires forall i :: 0 <= i < |io| ==> io[i].GpioIo?
    ensures OverlapCheck(io).Ok? <==> NoDuplicates(GpioPins(io)) && NoDuplicates(Identifiers(io))
  {
    DuplicatesEmptyIff(GpioPins(io));
    DuplicatesEmptyIff(Identifiers(io));
  }

  /** Any list with an I2C entry is refused, and never for duplicate addresses. */
  lemma AnyI2cEntryRefused(io: seq<IoConfig>)
    requires exists i :: 0 <= i < |io| && io[i].I2cIo?
    ensures OverlapCheck(io).Err?
    ensures !OverlapCheck(io).error.DuplicateAddresses?
    ensures OverlapCheck(io).error == PinsReservedForI2c <==>
      NoDuplicates(GpioPins(io)) && exists p :: p in GpioPins(io) && p in I2cPins
  {
    var i :| 0 <= i < |io| && io[i].I2cIo?;
    assert I2cEntries(io) != [];
    var pins := GpioPins(io);
    DuplicatesEmptyIff(pins);
    if Duplicates(pins) != [] {
      assert OverlapCheck(io) == Err(DuplicatePins(Duplicates(pins)));
    } else if exists p :: p in pins && p in I2cPins {
      assert OverlapCheck(io) == Err(PinsReservedForI2c);
    } else {
      assert IdentifierCheck(io) == Err(MissingIdentifier);
      assert OverlapCheck(io) == Err(MissingIdentifier);
    }
  }
}
