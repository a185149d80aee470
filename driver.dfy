/**
 * Device drivers: the direction rules of input and output drivers, the
 * registry that builds drivers from raw configurations, and the validation of
 * a device's address space.
 */
module Driver {
  import opened Wrappers
  import opened Uniqueness
  import opened DriverConfig
  import Text

  datatype DriverError = WrongDirection

  predicate IsInputDirection(d: Option<DriverDirection>)
  {
    d.None? || d.value == Input || d.value == Bidirectional
  }

  predicate IsOutputDirection(d: Option<DriverDirection>)
  {
    d.None? || d.value == Output || d.value == Bidirectional
  }

  /** The `InputDriver` constructor check; a configuration without a direction passes. */
  function InputDriverCheck(config: DriverConfigRecord): (r: Result<DriverConfigRecord, DriverError>)
    ensures r.Ok? <==> config.direction.None? || config.direction.value in {Input, Bidirectional}
    ensures r.Ok? ==> r.value == config
  {
    if IsInputDirection(config.direction) then Ok(config) else Err(WrongDirection)
  }

  /** The `OutputDriver` constructor check. */
  function OutputDriverCheck(config: DriverConfigRecord): (r: Result<DriverConfigRecord, DriverError>)
    ensures r.Ok? <==> config.direction.None? || config.direction.value in {Output, Bidirectional}
    ensures r.Ok? ==> r.value == config
  {
    if IsOutputDirection(config.direction) then Ok(config) else Err(WrongDirection)
  }

  /** Only a bidirectional (or direction-less) configuration is accepted by both kinds of driver. */
  lemma BothDirectionsIff(config: DriverConfigRecord)
    ensures InputDriverCheck(config).Ok? && OutputDriverCheck(config).Ok? <==>
      config.direction.None? || config.direction.value == Bidirectional
    ensures config.direction == Some(Input) ==> OutputDriverCheck(config).Err?
    ensures config.direction == Some(Output) ==> InputDriverCheck(config).Err?
  {
  }

  /** A raw configuration: the mapping of field names to the given values. */
  type RawConfig = map<string, string>

  /**
   * A configuration class as the registry sees it: whether it derives from
   * `DriverConfig`, and its `model_validate`, which may refuse the raw mapping.
   */
  datatype ConfigModel = ConfigModel(name: string, isDriverConfig: bool, validate: RawConfig -> Option<DriverConfigRecord>)

  /** What `register` stores for a module: the configuration class and the factory, named. */
  datatype DriverDefinition = DriverDefinition(config: ConfigModel, factory: string)

  /** A built driver: the factory that made it and the configuration it was given. */
  datatype BuiltDriver = BuiltDriver(factory: string, config: DriverConfigRecord)

  datatype RegisterError = NotADriverConfig | AlreadyRegistered(driverModule: string)

  datatype BuildError = InvalidConfig | NotRegistered(driverModule: string)

  /**
   * `DriverConfig.model_validate`: the edge schema strips Unicode white space
   * from `identifier` and `driver_module`; the stripped identifier has at most
   * 64 characters and the stripped module name resolves.
   */
  function BaseConfigModule(raw: RawConfig, importable: string -> bool): (r: Option<string>)
    ensures r.Some? <==>
      && "identifier" in raw && ValidIdentifier(Text.Strip(raw["identifier"], Text.IsUnicodeWhiteSpace))
      && "driver_module" in raw && ResolveDriverModule(Text.Strip(raw["driver_module"], Text.IsUnicodeWhiteSpace), importable).Some?
    ensures r.Some? ==> r == ResolveDriverModule(Text.Strip(raw["driver_module"], Text.IsUnicodeWhiteSpace), importable)
  {
    if "identifier" !in raw || !ValidIdentifier(Text.Strip(raw["identifier"], Text.IsUnicodeWhiteSpace)) || "driver_module" !in raw then None
    else ResolveDriverModule(Text.Strip(raw["driver_module"], Text.IsUnicodeWhiteSpace), importable)
  }

  /** White space around the module name is stripped before the name is resolved. */
  lemma PaddedModuleResolves(raw: RawConfig, importable: string -> bool, before: string, name: string, after: string)
    requires "identifier" in raw && ValidIdentifier(raw["identifier"])
    requires "driver_module" in raw && raw["driver_module"] == before + name + after
    requires name == [] || (!Text.IsUnicodeWhiteSpace(name[0]) && !Text.IsUnicodeWhiteSpace(name[|name| - 1]))
    requires forall i :: 0 <= i < |before| ==> Text.IsUnicodeWhiteSpace(before[i])
    requires forall i :: 0 <= i < |after| ==> Text.IsUnicodeWhiteSpace(after[i])
    ensures BaseConfigModule(raw, importable) == ResolveDriverModule(name, importable)
  {
    assert Text.Strip(raw["driver_module"], Text.IsUnicodeWhiteSpace) == name by {
      Text.StripIgnoresPadding(before, name, after, Text.IsUnicodeWhiteSpace);
      Text.StripUnpadded(name, Text.IsUnicodeWhiteSpace);
    }
  }

  /**
   * A built-in module named with a blank in front, ` dht11`, resolves to the
   * built-in package's module when only that one imports.
   */
  lemma PaddedBuiltinExample(raw: RawConfig, importable: string -> bool, name: string)
    requires name == "dht11"
    requires "identifier" in raw && ValidIdentifier(raw["identifier"])
    requires "driver_module" in raw && raw["driver_module"] == " " + name
    requires !importable(name) && importable(BuiltinDriverPackage + "." + name)
    ensures BaseConfigModule(raw, importable) == Some(BuiltinDriverPackage + "." + name)
  {
    PaddedModuleResolves(raw, importable, " ", name, "");
  }

  /** `DriverFactory.build` over a registry: the registered factory applied to the registered class's validation. */
  function BuildFrom(index: map<string, DriverDefinition>, raw: RawConfig, importable: string -> bool): (r: Result<BuiltDriver, BuildError>)
    ensures BaseConfigModule(raw, importable).None? ==> r == Err(InvalidConfig)
    ensures BaseConfigModule(raw, importable).Some? && BaseConfigModule(raw, importable).value !in index ==>
      r == Err(NotRegistered(BaseConfigModule(raw, importable).value))
    ensures r.Ok? ==> var m := BaseConfigModule(raw, importable).value;
      m in index && r.value.factory == index[m].factory && index[m].config.validate(raw) == Some(r.value.config)
  {
    match BaseConfigModule(raw, importable)
    case None => Err(InvalidConfig)
    case Some(m) =>
      if m !in index then Err(NotRegistered(m))
      else
        match index[m].config.validate(raw)
        case None => Err(InvalidConfig)
        case Some(config) => Ok(BuiltDriver(index[m].factory, config))
  }

  /** The singleton registry of driver modules. */
  class DriverFactory {
    var index: map<string, DriverDefinition>

    constructor ()
      ensures index == map[]
    {
      index := map[];
    }

    /** `register`: a class outside `DriverConfig` or a second registration of a module is refused and changes nothing. */
    method Register(driverModule: string, config: ConfigModel, factory: string) returns (r: Result<(), RegisterError>)
      modifies this
      ensures !config.isDriverConfig ==> r == Err(NotADriverConfig) && index == old(index)
      ensures config.isDriverConfig && driverModule in old(index) ==>
        r == Err(AlreadyRegistered(driverModule)) && index == old(index)
      ensures config.isDriverConfig && driverModule !in old(index) ==>
        r == Ok(()) && index == old(index)[driverModule := DriverDefinition(config, factory)]
    {
      if !config.isDriverConfig {
        return Err(NotADriverConfig);
      }
      if driverModule in index {
        return Err(AlreadyRegistered(driverModule));
      }
      index := index[driverModule := DriverDefinition(config, factory)];
      return Ok(());
    }

    /** `build`: reads the registry and changes nothing. */
    method Build(raw: RawConfig, importable: string -> bool) returns (r: Result<BuiltDriver, BuildError>)
      ensures r == BuildFrom(index, raw, importable)
    {
      match BaseConfigModule(raw, importable)
      case None => return Err(InvalidConfig);
      case Some(m) =>
        if m !in index {
          return Err(NotRegistered(m));
        }
        var definition := index[m];
        match definition.config.validate(raw)
        case None => return Err(InvalidConfig);
        case Some(config) => return Ok(BuiltDriver(definition.factory, config));
    }
  }

  /** After a module is registered, building a configuration naming it uses that module's class and factory. */
  lemma BuildAfterRegister(index: map<string, DriverDefinition>, m: string, config: ConfigModel, factory: string,
                           raw: RawConfig, importable: string -> bool, built: DriverConfigRecord)
    requires BaseConfigModule(raw, importable) == Some(m)
    requires config.validate(raw) == Some(built)
    ensures BuildFrom(index[m := DriverDefinition(config, factory)], raw, importable) == Ok(BuiltDriver(factory, built))
    ensures m !in index ==> BuildFrom(index, raw, importable) == Err(NotRegistered(m))
  {
  }

  const I2cPins: set<int> := {2, 3}

  datatype AddressSpaceError =
    | DuplicateIdentifiers(identifiers: seq<string>)
    | DuplicateGpioPins(pins: seq<int>)
    | PinsReservedForI2c
    | DuplicateI2cAddresses(addresses: seq<string>)

  function DriverIdentifiers(drivers: seq<DriverConfigRecord>): (ids: seq<string>)
    ensures |ids| == |drivers| && forall i :: 0 <= i < |drivers| ==> ids[i] == drivers[i].identifier
  {
    if |drivers| == 0 then [] else [drivers[0].identifier] + DriverIdentifiers(drivers[1..])
  }

  /** The pins of the GPIO configurations, in list order. */
  function GpioPins(drivers: seq<DriverConfigRecord>): (pins: seq<int>)
    ensures forall p :: p in pins <==> exists i :: 0 <= i < |drivers| && drivers[i].protocol.Gpio? && drivers[i].protocol.pin == p
    ensures forall i :: 0 <= i < |pins| ==> ValidPin(pins[i])
  {
    if |drivers| == 0 then []
    else (if drivers[0].protocol.Gpio? then [drivers[0].protocol.pin] else []) + GpioPins(drivers[1..])
  }

  /** The addresses of the I2C configurations, in list order. */
  function I2cAddresses(drivers: seq<DriverConfigRecord>): (addresses: seq<string>)
    ensures addresses == [] <==> forall i :: 0 <= i < |drivers| ==> !drivers[i].protocol.I2c?
  {
    if |drivers| == 0 then []
    else (if drivers[0].protocol.I2c? then [drivers[0].protocol.address] else []) + I2cAddresses(drivers[1..])
  }

  predicate UsesI2cPin(pins: seq<int>)
  {
    exists p :: p in pins && p in I2cPins
  }

  /** The checks of `validate_device_address_space`, in the order they run. */
  function AddressSpaceCheck(drivers: seq<DriverConfigRecord>): Result<(), AddressSpaceError>
  {
    var ids := DriverIdentifiers(drivers);
    var pins := GpioPins(drivers);
    var addresses := I2cAddresses(drivers);
    if Duplicates(ids) != [] then Err(DuplicateIdentifiers(Duplicates(ids)))
    else if Duplicates(pins) != [] then Err(DuplicateGpioPins(Duplicates(pins)))
    else if addresses != [] && UsesI2cPin(pins) then Err(PinsReservedForI2c)
    else if Duplicates(addresses) != [] then Err(DuplicateI2cAddresses(Duplicates(addresses)))
    else Ok(())
  }

  /** `validate_device_address_space`, scanning each list with a growing seen set. */
  method ValidateDeviceAddressSpace(drivers: seq<DriverConfigRecord>) returns (r: Result<(), AddressSpaceError>)
    ensures r == AddressSpaceCheck(drivers)
  {
    var duplicateIds := CollectDuplicates(DriverIdentifiers(drivers));
    if duplicateIds != [] {
      return Err(DuplicateIdentifiers(duplicateIds));
    }
    var pins := GpioPins(drivers);
    var duplicatePins := CollectDuplicates(pins);
    if duplicatePins != [] {
      return Err(DuplicateGpioPins(duplicatePins));
    }
    var addresses := I2cAddresses(drivers);
    if addresses != [] {
      var k := 0;
      while k < |pins|
        invariant 0 <= k <= |pins|
        invariant forall j :: 0 <= j < k ==> pins[j] !in I2cPins
      {
        if pins[k] in I2cPins {
          return Err(PinsReservedForI2c);
        }
        k := k + 1;
      }
    }
    var duplicateAddresses := CollectDuplicates(addresses);
    if duplicateAddresses != [] {
      return Err(DuplicateI2cAddresses(duplicateAddresses));
    }
    return Ok(());
  }

  /** A device's drivers are accepted exactly when identifiers, pins and addresses are unique and pins 2 and 3 are free once I2C is used. */
  lemma AddressSpaceAcceptedIff(drivers: seq<DriverConfigRecord>)
    ensures AddressSpaceCheck(drivers).Ok? <==>
      NoDuplicates(DriverIdentifiers(drivers)) &&
      NoDuplicates(GpioPins(drivers)) &&
      (I2cAddresses(drivers) != [] ==> !UsesI2cPin(GpioPins(drivers))) &&
      NoDuplicates(I2cAddresses(drivers))
  {
    DuplicatesEmptyIff(DriverIdentifiers(drivers));
    DuplicatesEmptyIff(GpioPins(drivers));
    DuplicatesEmptyIff(I2cAddresses(drivers));
  }

  /** Pin 2 is free for GPIO use when no I2C driver is configured, and reserved as soon as one is. */
  lemma Pin2AllowedWithoutI2c(gpio: DriverConfigRecord, i2c: DriverConfigRecord)
    requires gpio.protocol == Gpio(2) && i2c.protocol.I2c?
    requires gpio.identifier != i2c.identifier
    ensures AddressSpaceCheck([gpio]) == Ok(())
    ensures AddressSpaceCheck([gpio, i2c]) == Err(PinsReservedForI2c)
  {
    assert [gpio, i2c][1..] == [i2c] && [i2c][1..] == [] && [gpio][1..] == [];
    var pins := GpioPins([gpio, i2c]);
    assert GpioPins([]) == [];
    assert GpioPins([i2c]) == [] + GpioPins([]);
    assert GpioPins([gpio]) == [gpio.protocol.pin] + GpioPins([]);
    assert pins == [gpio.protocol.pin] + GpioPins([i2c]);
    assert I2cAddresses([gpio]) == [];
    assert I2cAddresses([gpio, i2c]) == [i2c.protocol.address];
    DuplicatesEmptyIff(DriverIdentifiers([gpio]));
    DuplicatesEmptyIff(DriverIdentifiers([gpio, i2c]));
    DuplicatesEmptyIff(pins);
    assert 2 in pins;
  }
}
