# carlos: a verified model of the decision logic

carlos is a monitoring system for sensors on small edge devices. An edge
device reads its sensors through drivers, buffers the samples and sends them
over a websocket to a server. The server stores them in a partitioned
Postgres timeseries table. A dashboard draws them as charts.

This project models the deterministic logic inside that system and proves
properties of it. Each Dafny module follows one source file:

- the wire format of edge messages and the handler dispatch;
- the device configuration: I2C addresses, driver directions, the driver
  factory, the address-space check, unit to quantity;
- sensor decoding: CRC-8, SHT30 frames, DHT11/DHT22 pulse trains, I2C byte
  conversions, the mocked GPIO registry;
- the runtime state: the retry back-off, the API token slot, the server's
  connection registry;
- the server's timeseries helpers: validation, coalescing, row grouping,
  partition names and bounds, interpolation between dates, the online check
  of a device, data reduction for charts;
- the developer tooling: Docker image and port validation, environment and
  working-directory context managers, the dependency graph's depth-first
  search;
- the dashboard: request de-duplication, gradient colour and alpha stops,
  chart data, object merging, value rendering, the layout category.

Conventions:

- Clocks, buses, pins, sockets and the database are parameters or fields. The
  model never reads them itself.
- Numbers of the source's floating-point type are `real`.
- Timestamps are integer microseconds since the Unix epoch.
- Strings are `seq<char>`.
- Byte data is `bv8`.

`Wrappers` (Option and Result), `Text` (decimal and hexadecimal text) and
`Uniqueness` (duplicate-free sequences) are shared helpers.

Where the specification and the code disagree, the model follows the code:

- The partition tests name the schema `data.timeseries`, while the ORM uses
  `carlos`. The model takes the partition names from `partitions.py` as written.
- The protocol list of `docker.py` spells `upd`, not `udp`. So as written
  `80/udp` is refused and `80/upd` accepted (`Docker.PortKeyUdpExample`).
  This is recorded under "## Findings". Both forms are modelled over one
  check that takes the protocol list: `Docker.ValidatePortKeyAsWritten` and
  `Docker.ValidatePortsAsWritten` use the list as written, and
  `Docker.ValidatePortKey` and `Docker.ValidatePorts` use Docker's `udp`.
  `Docker.PortsUdpExample` shows a `53/udp` mapping refused as written and
  accepted when corrected, and `Docker.PortKeyFormsAgree` states that the two
  lists differ on no other key.
- The emoji literals of `value-render.ts` are stored doubly encoded in the
  source text. The model uses the glyphs they encode. The freezing literal
  (line 10) has lost two of its bytes in that encoding (0x9D and 0x8F have
  no Windows-1252 character), so its glyph ❄️ (U+2744 U+FE0F) is
  reconstructed from the four bytes that remain, not read off the text.
- The overlap validator of the older device configuration (`config.py`)
  tests an I2C address for membership in the list of configuration objects,
  not in the set of seen addresses, so it never reports a duplicate address
  (`DeviceConfig.I2cDuplicateNeverFires`). Its identifier scan reads
  `identifier` on I2C entries, which do not have one, so any configuration
  with an I2C entry is refused (`DeviceConfig.AnyI2cEntryRefused`). The model
  keeps both behaviours as written.

## Model

| member | source | states |
|---|---|---|
| Messages.ParseMessageType | lib/py_edge_interface/carlos/edge/interface/messages.py:135-138 | `MessageType(s)` yields the member whose wire value is exactly `s`, and fails only when no member has that value |
| Messages.TypeValueRoundTrip | lib/py_edge_interface/carlos/edge/interface/messages.py:28-58 | every type's wire value is non-empty, free of the `\|` separator, and parses back to the same type |
| Messages.TypeValue | lib/py_edge_interface/carlos/edge/interface/messages.py:28-58 | the wire value of a type; `TypeValueRoundTrip` states that it is non-empty, free of `\|` and parses back |
| Messages.ModelOf | lib/py_edge_interface/carlos/edge/interface/messages.py:257-265 | the payload table covers every type, and exactly PING and PONG carry no payload |
| Messages.NewMessage | lib/py_edge_interface/carlos/edge/interface/messages.py:90-113 | construction succeeds exactly for a valid message; a payload on a payloadless type and a missing payload on a payload type are the two distinct errors |
| Messages.SplitOnce | lib/py_edge_interface/carlos/edge/interface/messages.py:133 | `split("\|", 1)`: the head holds no separator, is the whole text when there is none, and head, separator and rest make up the text |
| Messages.SplitOnceUnique | lib/py_edge_interface/carlos/edge/interface/messages.py:133 | any such decomposition is the one the split returns, so a payload may itself contain `\|` |
| Messages.Build | lib/py_edge_interface/carlos/edge/interface/messages.py:115-126 | the text starts with the type's wire value, and is exactly that value when there is no payload |
| Messages.FromStr | lib/py_edge_interface/carlos/edge/interface/messages.py:129-155 | a parsed message is always valid and has the type named before the first separator; an unknown name is reported as such and only then |
| Messages.BuildRoundTrip | lib/py_edge_interface/carlos/edge/interface/messages.py:115-155 | `from_str(build(m)) == m` for every valid message, given JSON that is never empty and loads back |
| Messages.PayloadlessIgnoresRest | lib/py_edge_interface/carlos/edge/interface/messages.py:140-143 | for PING and PONG whatever follows the separator is ignored and the payload is None |
| Messages.MissingPayloadErrors | lib/py_edge_interface/carlos/edge/interface/messages.py:145-147 | a payload type without a separator fails on the missing list element, and with an empty payload it fails as a missing payload |
| Messages.FromStrExamples | lib/py_edge_interface/carlos/edge/interface/messages.py:133-143 | `ping` parses to a PING without payload; `hello\|{}` is refused as the unsupported type `hello` |
| Protocol.HandlerSends | lib/py_edge_interface/carlos/edge/interface/protocol.py:202-209 | the ping handler sends one PONG; the pong handler sends nothing |
| Protocol.Sends | lib/py_edge_interface/carlos/edge/interface/protocol.py:172-186 | handling a message sends what its type's registered handler sends, and nothing for a type without a handler |
| Protocol.Calls | lib/py_edge_interface/carlos/edge/interface/protocol.py:180-186 | at most one handler is called, exactly when one is registered for the type, and it is that one, with the message |
| Protocol.ReceivedMessages | lib/py_edge_interface/carlos/edge/interface/protocol.py:167-169 | the messages received are at most as many as the connection's events |
| Protocol.HandledStep | lib/py_edge_interface/carlos/edge/interface/protocol.py:167-169 | handling one more received message extends the sends and calls by exactly that message's |
| Protocol.PingIsAnsweredByPong | lib/py_edge_interface/carlos/edge/interface/protocol.py:202-204 | with the default table a PING calls `handle_ping` once and sends exactly one valid PONG without payload |
| Protocol.ListenStopsAtFirstRequest | lib/py_edge_interface/carlos/edge/interface/protocol.py:167-170 | once a handled message requested the stop, the loop ends stopped right after it, having handled no further message |
| Protocol.ListenLoop | lib/py_edge_interface/carlos/edge/interface/protocol.py:158-170 | the loop ends where the stop rule says and has sent and called exactly what handling the received messages in order sends and calls |
| Protocol.EdgeCommunicationHandler.constructor | lib/py_edge_interface/carlos/edge/interface/protocol.py:96-113 | a fresh handler has the PING and PONG handlers, is not stopped and has sent nothing |
| Protocol.EdgeCommunicationHandler.Stop | lib/py_edge_interface/carlos/edge/interface/protocol.py:115-117 | `stop` sets the flag and changes nothing else |
| Protocol.EdgeCommunicationHandler.RegisterHandlers | lib/py_edge_interface/carlos/edge/interface/protocol.py:119-146 | all or nothing: the batch is registered, overriding earlier handlers, exactly when every handler's signature matches; otherwise the table is unchanged |
| Protocol.EdgeCommunicationHandler.HandleMessage | lib/py_edge_interface/carlos/edge/interface/protocol.py:172-186 | the message's sends and calls are appended, and the table and stop flag are kept |
| Protocol.EdgeCommunicationHandler.Listen | lib/py_edge_interface/carlos/edge/interface/protocol.py:158-170 | `listen` handles messages until stopped or disconnected; it is stopped exactly when it ends by the flag, and its sends are those of the handled messages |
| Driver.InputDriverCheck | lib/py_edge_interface/carlos/edge/interface/device/driver.py:81-90 | an input driver accepts its configuration exactly when it has no direction or is input or bidirectional, and keeps it unchanged |
| Driver.OutputDriverCheck | lib/py_edge_interface/carlos/edge/interface/device/driver.py:117-126 | an output driver accepts its configuration exactly when it has no direction or is output or bidirectional, and keeps it unchanged |
| Driver.BothDirectionsIff | lib/py_edge_interface/carlos/edge/interface/device/driver.py:81-126 | a configuration is accepted by both kinds of driver exactly when it is bidirectional or has no direction; an input configuration is refused by an output driver and the other way round |
| Driver.BaseConfigModule | lib/py_edge_interface/carlos/edge/interface/device/driver_config.py:29-65 | the base validation succeeds exactly when the identifier, stripped of Unicode white space, has at most 64 characters and the stripped `driver_module` resolves, and it yields that resolved module |
| Driver.PaddedModuleResolves | lib/py_edge_interface/carlos/edge/interface/types.py:22-24 | white space around the module name does not change the module it resolves to |
| Driver.PaddedBuiltinExample | lib/py_edge_interface/carlos/edge/interface/device/driver_config.py:52-65 | ` dht11` resolves to `carlos.edge.device.driver.dht11` when only the built-in module imports |
| Driver.BuildFrom | lib/py_edge_interface/carlos/edge/interface/device/driver.py:216-239 | an invalid base configuration and an unregistered module are the two errors; a built driver uses the registered factory with the registered class's validated configuration |
| Driver.DriverFactory.constructor | lib/py_edge_interface/carlos/edge/interface/device/driver.py:177-188 | the first `DriverFactory()` creates the one shared registry, which starts empty |
| Driver.DriverFactory.Register | lib/py_edge_interface/carlos/edge/interface/device/driver.py:190-214 | a class outside `DriverConfig` is a `ValueError` and a second registration of a module a `RuntimeError`, both leaving the registry unchanged; otherwise exactly that module is added |
| Driver.DriverFactory.Build | lib/py_edge_interface/carlos/edge/interface/device/driver.py:216-239 | `build` gives what the registry function gives and changes nothing |
| Driver.BuildAfterRegister | lib/py_edge_interface/carlos/edge/interface/device/driver.py:190-239 | once a module is registered, a configuration naming it is built with that module's class and factory; before that it is refused as unregistered |
| Driver.DriverIdentifiers | lib/py_edge_interface/carlos/edge/interface/device/driver.py:257-261 | one identifier per driver, in order |
| Driver.GpioPins | lib/py_edge_interface/carlos/edge/interface/device/driver.py:268-280 | a pin is listed exactly when some GPIO driver uses it, and every listed pin is one of 2..27 |
| Driver.I2cAddresses | lib/py_edge_interface/carlos/edge/interface/device/driver.py:287-303 | no address is listed exactly when no driver uses I2C |
| Driver.ValidateDeviceAddressSpace | lib/py_edge_interface/carlos/edge/interface/device/driver.py:246-308 | the seen-set scans report exactly what the order of checks in `validate_device_address_space` reports |
| Driver.AddressSpaceAcceptedIff | lib/py_edge_interface/carlos/edge/interface/device/driver.py:246-308 | the drivers are accepted exactly when identifiers, GPIO pins and I2C addresses are each unique and, when any I2C driver exists, no GPIO driver uses pin 2 or 3 |
| Driver.Pin2AllowedWithoutI2c | lib/py_edge_interface/carlos/edge/interface/device/driver.py:287-295 | pin 2 is accepted for GPIO without an I2C driver and refused as reserved once one is added |
| DriverConfig.ParseDirection | lib/py_edge_interface/carlos/edge/interface/device/driver_config.py:70-75 | a parsed direction has exactly the given text as its value, and parsing fails only when no direction has that value |
| DriverConfig.ResolveDriverModule | lib/py_edge_interface/carlos/edge/interface/device/driver_config.py:52-67 | a resolved module is importable; resolution fails exactly when neither the name nor the name inside the built-in driver package imports |
| DriverConfig.ResolveIdempotent | lib/py_edge_interface/carlos/edge/interface/device/driver_config.py:52-67 | a resolved module name resolves to itself |
| DriverConfig.AddressNumberOf | lib/py_edge_interface/carlos/edge/interface/device/driver_config.py:138-145 | an integer address is taken as is; a text loses one leading `0x` and is then read by `int(text, 16)`, which fails only on a text that is not hexadecimal |
| DriverConfig.CheckAddress | lib/py_edge_interface/carlos/edge/interface/device/driver_config.py:134-150 | an address passes exactly when `int(text, 16)` reads it and the number lies in 0x03..0x77; a text `int()` refuses is not hexadecimal, and any number it reads outside the range, a negative one included, is out of range |
| DriverConfig.ValidateAddress | lib/py_edge_interface/carlos/edge/interface/device/driver_config.py:134-157 | an accepted address is stored as `0x` and two hex digits, and `address_int` reads back the checked number; refusals are those of the range check |
| DriverConfig.ValidateAddressIdempotent | lib/py_edge_interface/carlos/edge/interface/device/driver_config.py:134-152 | validating a stored address again gives the same result |
| DriverConfig.AddressInt | lib/py_edge_interface/carlos/edge/interface/device/driver_config.py:154-157 | only non-empty text reads as a number, and a stored address, `0x` followed by hexadecimal digits, reads as the digits' value |
| DriverConfig.ValidatePin | lib/py_edge_interface/carlos/edge/interface/device/driver_config.py:94-121 | a pin is accepted exactly when it is one of 2..27, and then kept; any other number is refused and reported |
| DriverConfig.PinExamples | lib/py_edge_interface/carlos/edge/interface/device/driver_config.py:94-121 | 2 and 27 are accepted, 1, 28, 0 and -2 are refused |
| DriverConfig.RevalidatePin | lib/py_edge_interface/carlos/edge/interface/device/driver_config.py:94-121 | validating a stored pin again gives it back |
| DriverConfig.GpioRecord | lib/py_edge_interface/carlos/edge/interface/device/driver_config.py:86-121 | a GPIO driver configuration is built exactly when its pin is one of 2..27, with its identifier, module, direction and pin; otherwise the pin is reported |
| DriverConfig.TextAddressExamples | lib/py_edge_interface/carlos/edge/interface/device/driver_config.py:138-145 | `0x44` and `44` both normalise to `0x44` |
| DriverConfig.NumberAddressExamples | lib/py_edge_interface/carlos/edge/interface/device/driver_config.py:147-152 | 0x44 and 3 are stored as `0x44` and `0x03`; 2 and 0x78 are out of range |
| DriverConfig.NotHexExample | lib/py_edge_interface/carlos/edge/interface/device/driver_config.py:138-145 | `0xzz` is refused as not hexadecimal |
| DriverConfig.NotHexRefused | lib/py_edge_interface/carlos/edge/interface/device/driver_config.py:142-145 | `int("zz", 16)` fails |
| DriverConfig.PrefixedText | lib/py_edge_interface/carlos/edge/interface/device/driver_config.py:139-143 | a text behind `0x` is read without the prefix |
| DriverConfig.UnprefixedText | lib/py_edge_interface/carlos/edge/interface/device/driver_config.py:138-143 | a text that does not start with `0` is read as it stands |
| DriverConfig.PaddedAddressAccepted | lib/py_edge_interface/carlos/edge/interface/device/driver_config.py:138-143 | white space on both sides of an address text does not change the number it is read as |
| DriverConfig.SignedAddressExamples | lib/py_edge_interface/carlos/edge/interface/device/driver_config.py:142-150 | a `+` in front of an in-range address keeps it; a `-` makes it negative, so it is refused as out of range and not as not hexadecimal |
| DriverConfig.UnderscoreAddressExample | lib/py_edge_interface/carlos/edge/interface/device/driver_config.py:142-150 | `4_4` passes as 0x44, because `int()` skips a single underscore between digits |
| DriverConfig.HexOf44 | lib/py_edge_interface/carlos/edge/interface/device/driver_config.py:152 | `f"{0x44:02x}"` is `44`, whose hexadecimal value is 0x44 |
| DeviceConfig.ValidateAddress | lib/py_edge_interface/carlos/edge/interface/device/config.py:99-117 | `I2CConfig.validate_address` accepts exactly what the driver configuration's check accepts, with the same errors; the stored text is `0x` and the number without zero padding, and reads back as the checked number |
| DeviceConfig.AddressFormsAgree | lib/py_edge_interface/carlos/edge/interface/device/config.py:99-117 | both address validators accept the same inputs and store the same number; they differ in text for addresses below 0x10, such as `0x3` against `0x03` |
| DeviceConfig.GpioPins | lib/py_edge_interface/carlos/edge/interface/device/config.py:130-138 | a pin is listed exactly when some GPIO entry uses it, and every listed pin is one of 2..27 |
| DeviceConfig.GpioEntry | lib/py_edge_interface/carlos/edge/interface/device/config.py:39-74 | a GPIO entry is built exactly when its pin is one of 2..27, with its identifier, direction and pin; otherwise the pin is reported |
| DeviceConfig.I2cEntries | lib/py_edge_interface/carlos/edge/interface/device/config.py:145 | only I2C entries are kept, and the list is empty exactly when there is none |
| DeviceConfig.I2cDuplicatesAsWritten | lib/py_edge_interface/carlos/edge/interface/device/config.py:154-159 | the duplicate-address comprehension, which compares an address text with configuration objects, reports nothing |
| DeviceConfig.I2cDuplicateNeverFires | lib/py_edge_interface/carlos/edge/interface/device/config.py:155-159 | two I2C entries with the same address are not caught by the comprehension's test |
| DeviceConfig.IdentifierCheck | lib/py_edge_interface/carlos/edge/interface/device/config.py:167-172 | the identifier scan stops on an `AttributeError` exactly when an I2C entry is present, which has no identifier; otherwise it lists the repeated identifiers |
| DeviceConfig.Identifiers | lib/py_edge_interface/carlos/edge/interface/device/config.py:168-172 | one identifier per GPIO entry, in order |
| DeviceConfig.UsesI2cPin | lib/py_edge_interface/carlos/edge/interface/device/config.py:147 | the reserved-pin test holds exactly when some pin is 2 or 3 |
| DeviceConfig.CollectIdentifierDuplicates | lib/py_edge_interface/carlos/edge/interface/device/config.py:166-172 | the seen-set walk gives what the identifier check states |
| DeviceConfig.ValidateOverlap | lib/py_edge_interface/carlos/edge/interface/device/config.py:127-177 | the validator's walks give what the ordered checks state |
| DeviceConfig.GpioOnlyAcceptedIff | lib/py_edge_interface/carlos/edge/interface/device/config.py:127-177 | a GPIO-only configuration is accepted exactly when its pins and its identifiers are unique |
| DeviceConfig.AnyI2cEntryRefused | lib/py_edge_interface/carlos/edge/interface/device/config.py:145-177 | a configuration with an I2C entry is always refused, never for duplicate addresses, and for the reserved pins exactly when a GPIO entry uses pin 2 or 3 |
| Units.QuantityFromCode | lib/py_edge_interface/carlos/edge/interface/units.py:10-17 | `PhysicalQuantity(n)` for the five defined values gives the member whose value is `n` |
| Units.PhysicalQuantityAsWritten | lib/py_edge_interface/carlos/edge/interface/units.py:45-48 | as written, a unit's quantity is the one whose value is the unit's code divided by 100 |
| Units.QuantityAsWrittenDisagreesWithRanges | lib/py_edge_interface/carlos/edge/interface/units.py:29-48 | the division contradicts the ranges the enum declares: a percentage becomes a temperature, Celsius and Fahrenheit humidities, lux a ratio |
| Units.PhysicalQuantityOf | lib/py_edge_interface/carlos/edge/interface/units.py:29-43 | the corrected mapping puts each unit's code inside the block of a hundred codes that the enum's comments assign to its quantity |
| Units.PhysicalQuantityOfMatchesRanges | lib/py_edge_interface/carlos/edge/interface/units.py:29-43 | a unit lies in a quantity's block exactly when that quantity is the corrected one; Celsius and Fahrenheit are temperatures, percentage a ratio, lux illuminance |
| Units.UnitCode | lib/py_edge_interface/carlos/edge/interface/units.py:29-43 | the code of a unit; `PhysicalQuantityOfMatchesRanges` states that it lies in the hundred-block of its quantity |
| Endpoint.WebsocketEndpoint | lib/py_edge_interface/carlos/edge/interface/endpoint.py:2-10 | the endpoint is `/devices/`, the id and `/ws`, and the id can be read back from it |
| Endpoint.TokenEndpoint | lib/py_edge_interface/carlos/edge/interface/endpoint.py:13-16 | the token endpoint is the websocket endpoint followed by `/token` |
| Endpoint.EndpointsInjective | lib/py_edge_interface/carlos/edge/interface/endpoint.py:2-16 | different device ids never share a websocket endpoint or a token endpoint |
| DeviceConnection.DefaultSettings | services/device/device/connection.py:13-15 | SSL is on unless the settings say otherwise |
| DeviceConnection.WebsocketUri | services/device/device/connection.py:17-32 | without a token the URI is the plain one; with a token, it is the plain URI passed to the token-query helper |
| DeviceConnection.PlainWebsocketUri | services/device/device/connection.py:25-28 | the scheme is `wss` with SSL and `ws` without, followed by the host and the device's websocket endpoint |
| DeviceConnection.TokenUri | services/device/device/connection.py:34-43 | the scheme is `https` with SSL and `http` without, followed by the host and the device's token endpoint |
| DeviceConnection.TokenUriMirrorsWebsocketUri | services/device/device/connection.py:17-43 | the token URI is the token-less websocket URI with `ws` turned into `http` and `/token` appended |
| DeviceConnection.SchemeFollowsSsl | services/device/device/connection.py:26-41 | both URIs use the secure scheme exactly when SSL is on |
| Crc.Crc8 | lib/py_edge_device/carlos/edge/device/driver/_utils.py:4-26 | the nested byte and bit loops compute the CRC defined byte by byte: the register over the data, XOR the final value, always a byte |
| Crc.Crc8Of | lib/py_edge_device/carlos/edge/device/driver/_utils.py:4-26 | the CRC defined byte by byte; `Crc8` states that the source's loops compute it and `CrcMatchesIffZeroResidue` how a check byte relates to it |
| Crc.RegisterAppend | lib/py_edge_device/carlos/edge/device/driver/_utils.py:17-24 | processing a concatenation is processing its second part from the register the first part left |
| Crc.EmptyData | lib/py_edge_device/carlos/edge/device/driver/_utils.py:15-26 | the CRC of no data is the initial value XOR the final value |
| Crc.StepsOfZero | lib/py_edge_device/carlos/edge/device/driver/_utils.py:19-23 | a zero register stays zero under any number of shifts |
| Crc.StepInjective | lib/py_edge_device/carlos/edge/device/driver/_utils.py:20-23 | with an odd polynomial two registers that shift to the same value were equal |
| Crc.StepsInjective | lib/py_edge_device/carlos/edge/device/driver/_utils.py:19-23 | with an odd polynomial any number of shifts loses no information |
| Crc.RegisterSnoc | lib/py_edge_device/carlos/edge/device/driver/_utils.py:17-24 | one byte more adds exactly that byte to the register |
| Crc.AddByteZeroIff | lib/py_edge_device/carlos/edge/device/driver/_utils.py:18-24 | with an odd polynomial, adding a byte zeroes the register exactly when the byte equals the register |
| Crc.CrcMatchesIffZeroResidue | lib/py_edge_device/carlos/edge/device/driver/_utils.py:4-26 | with no final XOR and an odd polynomial, a received CRC byte equals the data's CRC exactly when the register over the data followed by that byte is zero |
| Crc.Sht3xCheckExample | lib/py_edge_device/carlos/edge/device/driver/sht30.py:110-111 | with initial value 0xFF, no final XOR and polynomial 0x31, the CRC of 0xBE 0xEF is 0x92, the worked example of section 4.12 of the Sensirion SHT3x data sheet |
| Sht30.ConfigAddress | lib/py_edge_device/carlos/edge/device/driver/sht30.py:21 | the configuration accepts exactly `0x44`, `0x45` or no address, which defaults to `0x44` |
| Sht30.AddressCheck | lib/py_edge_device/carlos/edge/device/driver/sht30.py:31-46 | the constructor accepts exactly an address whose number is 0x44 or 0x45 and keeps that number |
| Sht30.ConfiguredAddressesPass | lib/py_edge_device/carlos/edge/device/driver/sht30.py:21-46 | every address the configuration accepts passes the constructor's check |
| Sht30.PrefixedAddress | lib/py_edge_device/carlos/edge/device/driver/sht30.py:42 | `address_int` of `0x` and hexadecimal digits is the digits' value, so the stored `0x44` and `0x45` read as 0x44 and 0x45 |
| Sht30.ValidateData | lib/py_edge_device/carlos/edge/device/driver/sht30.py:103-112 | data validates only when it is non-empty and the CRC is a byte, and a byte CRC validates exactly when the CRC register over the data followed by it is zero |
| Sht30.EmptyDataIsInvalid | lib/py_edge_device/carlos/edge/device/driver/sht30.py:107-108 | empty data never validates, whatever the CRC |
| Sht30.Word | lib/py_edge_device/carlos/edge/device/driver/sht30.py:87-92 | the word's high and low bytes are the two bytes it was made of |
| Sht30.Temperature | lib/py_edge_device/carlos/edge/device/driver/sht30.py:98 | a temperature lies between -45 and 130 degrees |
| Sht30.Humidity | lib/py_edge_device/carlos/edge/device/driver/sht30.py:99 | a humidity lies between 0 and 100 percent |
| Sht30.ScalingMonotone | lib/py_edge_device/carlos/edge/device/driver/sht30.py:98-99 | a larger raw word gives a strictly larger temperature and humidity |
| Sht30.ScalingEnds | lib/py_edge_device/carlos/edge/device/driver/sht30.py:98-99 | the raw words 0 and 0xFFFF give -45 and 130 degrees, 0 and 100 percent |
| Sht30.EncodeFrame | lib/py_edge_device/carlos/edge/device/driver/sht30.py:82-85 | a sensor frame has six bytes |
| Sht30.WordOfBytes | lib/py_edge_device/carlos/edge/device/driver/sht30.py:87-92 | splitting a word into bytes and joining them gives the word back |
| Sht30.DecodeEncodedFrame | lib/py_edge_device/carlos/edge/device/driver/sht30.py:85-101 | a frame the sensor sent decodes to humidity and temperature scaled from its two words, in that order |
| Sht30.DecodeFrame | lib/py_edge_device/carlos/edge/device/driver/sht30.py:85-101 | the frame decoding; `DecodeEncodedFrame` and `AcceptedFramesAreEncodings` state that it accepts exactly the sensor's encodings and reads their words back |
| Sht30.AcceptedFramesAreEncodings | lib/py_edge_device/carlos/edge/device/driver/sht30.py:85-101 | every accepted frame has six bytes that are the sensor encoding of its own words, so both CRC bytes are right |
| Sht30.WordCheckIsZeroResidue | lib/py_edge_device/carlos/edge/device/driver/sht30.py:103-112 | a word passes the check exactly when the CRC register over the word and its CRC byte is zero |
| Sht30.DataSheetWordAccepted | lib/py_edge_device/carlos/edge/device/driver/sht30.py:103-112 | the data-sheet word 0xBEEF with its CRC 0x92 passes the check |
| Sht30.Sht30Sensor.Create | lib/py_edge_device/carlos/edge/device/driver/sht30.py:41-50 | a sensor is made exactly when the address passes the check, with that address and no device yet |
| Sht30.Sht30Sensor.Init | lib/py_edge_device/carlos/edge/device/driver/sht30.py:48-50 | a new sensor has its address, no device and no pauses |
| Sht30.Sht30Sensor.Setup | lib/py_edge_device/carlos/edge/device/driver/sht30.py:52-53 | `setup` opens a fresh device at the sensor's address on the given or detected bus |
| Sht30.Sht30Sensor.GetMeasurement | lib/py_edge_device/carlos/edge/device/driver/sht30.py:67-101 | without a device it fails as not set up; otherwise it writes the measure command, pauses, reads six bytes from register 0 and decodes them, stopping at the first bus error |
| Sht30.Sht30Sensor.Read | lib/py_edge_device/carlos/edge/device/driver/sht30.py:55-65 | without a device it fails as not set up; otherwise it pauses 100 ms between the measure command and the six-byte read, fails with the bus error when the write or the read is not delivered, fails with the frame's CRC error when a word does not check, and returns a decoded frame's temperature and humidity under their names |
| I2c.SignedByte | lib/py_edge_device/carlos/edge/device/protocol/i2c.py:103-108 | a byte read as signed lies in -128..127, is unchanged below 128 and still denotes the same byte modulo 256 |
| I2c.SignedWord | lib/py_edge_device/carlos/edge/device/protocol/i2c.py:124-129 | a word read as signed lies in -32768..32767, is unchanged below 32768 and still denotes the same word modulo 65536 |
| I2c.SignedByteRoundTrip | lib/py_edge_device/carlos/edge/device/protocol/i2c.py:103-108 | the signed reading of a byte and the encoding of a signed value are inverse to each other |
| I2c.SwapBytes | lib/py_edge_device/carlos/edge/device/protocol/i2c.py:114-117 | the swap exchanges the low and the high byte |
| I2c.SwapInvolution | lib/py_edge_device/carlos/edge/device/protocol/i2c.py:114-117 | swapping twice gives the word back |
| I2c.Uint16Of | lib/py_edge_device/carlos/edge/device/protocol/i2c.py:110-118 | a little-endian read is the word as the bus returns it; otherwise its bytes are exchanged |
| I2c.I2cDevice.constructor | lib/py_edge_device/carlos/edge/device/protocol/i2c.py:25-39 | the device keeps its address, uses the given bus or the detected one, and has made no transfer |
| I2c.I2cDevice.Write8 | lib/py_edge_device/carlos/edge/device/protocol/i2c.py:41-50 | one byte-data write is recorded; an undelivered write is an I/O error naming the address |
| I2c.I2cDevice.Write16 | lib/py_edge_device/carlos/edge/device/protocol/i2c.py:52-61 | one word-data write is recorded; an undelivered write is an I/O error naming the address |
| I2c.I2cDevice.WriteRaw8 | lib/py_edge_device/carlos/edge/device/protocol/i2c.py:63-70 | one raw byte write is recorded; an undelivered write is an I/O error naming the address |
| I2c.I2cDevice.WriteList | lib/py_edge_device/carlos/edge/device/protocol/i2c.py:72-81 | one block write is recorded; an undelivered write is an I/O error naming the address |
| I2c.I2cDevice.ReadList | lib/py_edge_device/carlos/edge/device/protocol/i2c.py:83-92 | one block read is recorded and its reply returned; no reply is an I/O error naming the address |
| I2c.I2cDevice.ReadUint8 | lib/py_edge_device/carlos/edge/device/protocol/i2c.py:94-101 | one byte read is recorded and its reply returned; no reply is an I/O error |
| I2c.I2cDevice.ReadInt8 | lib/py_edge_device/carlos/edge/device/protocol/i2c.py:103-108 | the byte read is returned as a signed value |
| I2c.I2cDevice.ReadUint16 | lib/py_edge_device/carlos/edge/device/protocol/i2c.py:110-122 | one word read is recorded and the word returned in the requested byte order |
| I2c.I2cDevice.ReadInt16 | lib/py_edge_device/carlos/edge/device/protocol/i2c.py:124-129 | the word read is returned in the requested byte order as a signed value |
| I2c.SpaceRunEnd | lib/py_edge_device/carlos/edge/device/protocol/i2c.py:140-141 | the run of `\s` characters from a position ends at the first character that is not one |
| I2c.RevisionSuffix | lib/py_edge_device/carlos/edge/device/protocol/i2c.py:140-142 | a matching line starts with `Revision`, and its group is its last four characters, all word characters |
| I2c.RevisionSuffixMatches | lib/py_edge_device/carlos/edge/device/protocol/i2c.py:142 | the scan accepts exactly the lines of the form `Revision`, white space, `:`, white space, anything, four word characters, and its group is their last four characters |
| I2c.PiRevisionOfLines | lib/py_edge_device/carlos/edge/device/protocol/i2c.py:132-153 | the revision is 0, 1 or 2, and 0 exactly when no line matches |
| I2c.GetPiRevision | lib/py_edge_device/carlos/edge/device/protocol/i2c.py:132-153 | the line scan returns what the first matching line gives, and 0 without a file |
| I2c.PiRevisionOf | lib/py_edge_device/carlos/edge/device/protocol/i2c.py:132-153 | the revision of the board's `cpuinfo` lines, 0 without a file; `PiRevisionOfLines`, `GetPiRevision` and `FirstMatchDecides` state it |
| I2c.BusNumber | lib/py_edge_device/carlos/edge/device/protocol/i2c.py:155-158 | the bus is 1 exactly on boards after revision 1, and 0 otherwise |
| I2c.FirstMatchDecides | lib/py_edge_device/carlos/edge/device/protocol/i2c.py:138-148 | the first matching line decides the revision, whatever follows it |
| I2c.RevisionExamples | lib/py_edge_device/carlos/edge/device/protocol/i2c.py:138-158 | `Revision : 0002` is revision 1 on bus 0, `Revision : a02082` revision 2 on bus 1, a line without space after the key matches nothing, and no file gives bus 0 |
| Dht.RunTimeout | lib/py_edge_device/carlos/edge/device/driver/_dhtxx.py:78-89 | no level from the given index on times out exactly when each lasts at most `MAX_CNT` polls |
| Dht.Timeout | lib/py_edge_device/carlos/edge/device/driver/_dhtxx.py:70-89 | the pulse train is read without a timeout exactly when the host's pull-up and every level last at most 320 polls |
| Dht.DataBits | lib/py_edge_device/carlos/edge/device/driver/_dhtxx.py:98-103 | one bit per data pulse asked for |
| Dht.CountLevel | lib/py_edge_device/carlos/edge/device/driver/_dhtxx.py:79-89 | a counting loop times out exactly when the level lasts more than `MAX_CNT` polls, and otherwise counts its length |
| Dht.CountPulses | lib/py_edge_device/carlos/edge/device/driver/_dhtxx.py:77-89 | the pulse loop reports the first level that times out, and without a timeout the counts are the level lengths |
| Dht.SumLowPulses | lib/py_edge_device/carlos/edge/device/driver/_dhtxx.py:91-93 | the loop sums the low pulses at even indices 2 to 80 |
| Dht.CollectBits | lib/py_edge_device/carlos/edge/device/driver/_dhtxx.py:98-103 | the loop writes `1` exactly for each high pulse above the average, in order |
| Dht.ConvertBits | lib/py_edge_device/carlos/edge/device/driver/_dhtxx.py:105-120 | the five bytes, the checksum test and the conversion of the 40 data bits give the result the decoding defines |
| Dht.ReadTrain | lib/py_edge_device/carlos/edge/device/driver/_dhtxx.py:70-122 | reading a train with loops and an array gives the decoding the functions define |
| Dht.DataBitIff | lib/py_edge_device/carlos/edge/device/driver/_dhtxx.py:95-103 | bit `i` is set exactly when the high pulse at index 3 + 2i exceeds the average of the 40 low pulses |
| Dht.DecodeOkIff | lib/py_edge_device/carlos/edge/device/driver/_dhtxx.py:70-122 | a reading succeeds exactly when no level times out and the checksum byte equals the sum of the four data bytes modulo 256 |
| Dht.Decode | lib/py_edge_device/carlos/edge/device/driver/_dhtxx.py:70-122 | the decoding of a pulse train; `DecodeOkIff` states when it succeeds and `Dht11RoundTrip` that a sensor's train decodes to its reading |
| Dht.Convert | lib/py_edge_device/carlos/edge/device/driver/_dhtxx.py:105-120 | the checksum test and scaling; `ConvertBits` computes it, `WrongChecksumRejected` and `Dht22Temperature` state its error and its sign bit |
| Dht.FirstTimeoutReported | lib/py_edge_device/carlos/edge/device/driver/_dhtxx.py:78-89 | the first level that times out names the error: a low level as a pulldown timeout, a high one as a pullup timeout at its pair's index |
| Dht.FirstTimeoutFrom | lib/py_edge_device/carlos/edge/device/driver/_dhtxx.py:78-89 | from any index, the first level that times out names the error |
| Dht.Dht22Temperature | lib/py_edge_device/carlos/edge/device/driver/_dhtxx.py:118-120 | a DHT22 temperature is the tenths in bits 17..31, negated exactly when bit 16 is set |
| Dht.BitsOfValue | lib/py_edge_device/carlos/edge/device/driver/_dhtxx.py:105-109 | reading back the binary digits of a number gives the number |
| Dht.BinaryValueConcat | lib/py_edge_device/carlos/edge/device/driver/_dhtxx.py:105-109 | the value of a concatenation is the first part shifted past the second plus the second |
| Dht.TrainOf | lib/py_edge_device/carlos/edge/device/driver/_dhtxx.py:77-89 | the train a sensor sends has the 41 low and high levels the loop expects |
| Dht.LowSumOfTrain | lib/py_edge_device/carlos/edge/device/driver/_dhtxx.py:91-93 | in such a train the low pulses sum to their count times their length |
| Dht.DataBitsOfTrain | lib/py_edge_device/carlos/edge/device/driver/_dhtxx.py:95-103 | when zeros are shorter and ones longer than a low pulse, the decoder reads back the bits sent |
| Dht.BytesToBits | lib/py_edge_device/carlos/edge/device/driver/_dhtxx.py:105-109 | five bytes give 40 bits |
| Dht.BytesOfBits | lib/py_edge_device/carlos/edge/device/driver/_dhtxx.py:105-109 | the bytes read from the 40 bits of five bytes are those bytes |
| Dht.Dht11RoundTrip | lib/py_edge_device/carlos/edge/device/driver/_dhtxx.py:70-117 | the train a DHT11 sends for humidity `h` and temperature `t` with the right checksum decodes to exactly those values |
| Dht.WrongChecksumRejected | lib/py_edge_device/carlos/edge/device/driver/_dhtxx.py:111-113 | a train with a wrong checksum byte is refused with the checksum error, whatever the sensor type |
| Dht.Dhtxx.constructor | lib/py_edge_device/carlos/edge/device/driver/_dhtxx.py:128-133 | a new driver has its type and pin, no sensor and no attempts |
| Dht.Dhtxx.Setup | lib/py_edge_device/carlos/edge/device/driver/_dhtxx.py:135-138 | `setup` creates the sensor for the driver's type and pin |
| Dht.Dhtxx.Read | lib/py_edge_device/carlos/edge/device/driver/_dhtxx.py:140-159 | without a sensor it fails; otherwise it gives what the retry rule over at most 16 attempts gives, having made between 1 and 16 attempts |
| Dht.Dhtxx.ReadOnce | lib/py_edge_device/carlos/edge/device/driver/_dhtxx.py:149-150 | one attempt counts once and decodes the attempt's train |
| Dht.AllFailLastErrorWins | lib/py_edge_device/carlos/edge/device/driver/_dhtxx.py:148-159 | when every remaining attempt fails, the error of the last attempt is raised |
| Dht.FirstSuccessWins | lib/py_edge_device/carlos/edge/device/driver/_dhtxx.py:148-155 | the first attempt that decodes is returned, with temperature and humidity under their own names |
| GpioMock.WithPinsProperties | lib/py_edge_device/carlos/edge/device/protocol/_gpio_mock.py:30-38 | setting up a list of pins never registers a pin twice, keeps the earlier pins in place, and registers exactly the old pins and the new ones |
| GpioMock.Gpio.constructor | lib/py_edge_device/carlos/edge/device/protocol/_gpio_mock.py:21-22 | the registry starts empty |
| GpioMock.Gpio.SetupPin | lib/py_edge_device/carlos/edge/device/protocol/_gpio_mock.py:36-38 | a pin is appended only when it is not yet registered |
| GpioMock.Gpio.Setup | lib/py_edge_device/carlos/edge/device/protocol/_gpio_mock.py:30-38 | one pin is set up as such; a list is set up pin by pin, in order; the registry stays free of duplicates |
| GpioMock.Gpio.Output | lib/py_edge_device/carlos/edge/device/protocol/_gpio_mock.py:40-44 | driving a pin succeeds exactly when it was set up, and otherwise raises naming the pin |
| GpioMock.Gpio.Input | lib/py_edge_device/carlos/edge/device/protocol/_gpio_mock.py:46-51 | a set-up pin reads low, any other pin raises |
| GpioMock.Gpio.Cleanup | lib/py_edge_device/carlos/edge/device/protocol/_gpio_mock.py:53-55 | cleaning up empties the registry |
| GpioMock.SetupListExample | lib/py_edge_device/carlos/edge/device/protocol/_gpio_mock.py:30-38 | setting up `[4, 17, 4]` registers 4 and 17 once each, in that order |
| Retry.NoRetryExecute | lib/py_edge_device/carlos/edge/device/retry.py:40-53 | `NoRetry` returns the single call's value or propagates its exception unchanged |
| Retry.ExponentialBackoff | lib/py_edge_device/carlos/edge/device/retry.py:108-120 | the produced function multiplies the previous delay by the factor |
| Retry.NewBackOffAsWritten | lib/py_edge_device/carlos/edge/device/retry.py:59-74 | the constructor as written fails with `OverflowError` exactly when no maximum is given; otherwise it builds the intended back-off |
| Retry.NewBackOff | lib/py_edge_device/carlos/edge/device/retry.py:59-74 | the intended constructor: the given function is kept, and without one the delay doubles; the start and the maximum are kept, an absent maximum meaning no cap |
| Retry.UncappedConstructionRaises | lib/py_edge_device/carlos/edge/device/retry.py:72-74 | with no maximum the constructor as written raises `OverflowError`; with the default five-minute maximum it succeeds |
| Retry.NextDelay | lib/py_edge_device/carlos/edge/device/retry.py:102-106 | the next delay is the function's value, or the maximum when that is smaller; no maximum never caps |
| Retry.Schedule | lib/py_edge_device/carlos/edge/device/retry.py:89-106 | `n` failures in a row sleep the first `n` delays of the schedule, in order |
| Retry.Delay | lib/py_edge_device/carlos/edge/device/retry.py:102-106 | the pause before the k-th retry; `Schedule`, `CapAfterFirst`, `DefaultScheduleMonotone` and `UncappedDoubling` state its values |
| Retry.BackOffResult | lib/py_edge_device/carlos/edge/device/retry.py:89-106 | what `execute` ends with; `Execute` computes it, `FirstSuccessReturned` and `UnexpectedPropagatesAtOnce` state its two ways out |
| Retry.FirstDecisive | lib/py_edge_device/carlos/edge/device/retry.py:91-94 | the first call that returns or raises an exception the `except` clause does not catch, with every call before it a caught failure (its class or one of its base classes listed) |
| Retry.CatchesExample | lib/py_edge_device/carlos/edge/device/retry.py:94 | a `ValueError` is caught by `(Exception,)` through its base class and not by `(TimeoutError,)` |
| Retry.SubclassIsRetried | lib/py_edge_device/carlos/edge/device/retry.py:91-100 | a failure whose class inherits from a listed class is retried, and the following call's value is returned |
| Retry.Execute | lib/py_edge_device/carlos/edge/device/retry.py:76-106 | the loop ends with the first decisive call's value or exception, having slept once per expected failure before it, with the delays of the schedule |
| Retry.UnexpectedPropagatesAtOnce | lib/py_edge_device/carlos/edge/device/retry.py:91-94 | an exception on the first call whose class and base classes are all unlisted propagates with no sleep |
| Retry.FirstSuccessReturned | lib/py_edge_device/carlos/edge/device/retry.py:91-100 | the first successful call after expected failures is the decisive one |
| Retry.DefaultScheduleMonotone | lib/py_edge_device/carlos/edge/device/retry.py:70-106 | with the doubling default and a cap at least the start, delays never decrease and never exceed the cap |
| Retry.CapAfterFirst | lib/py_edge_device/carlos/edge/device/retry.py:89-106 | the first delay is the start, uncapped; every later one is at most the maximum |
| Retry.UncappedDoubling | lib/py_edge_device/carlos/edge/device/retry.py:70-118 | with the intended constructor and no cap, the default delays are the start times successive powers of two |
| Retry.StartAboveCapDecreases | lib/py_edge_device/carlos/edge/device/retry.py:89-106 | a start above the cap is followed by the smaller cap |
| Retry.ScheduleExample | lib/py_edge_device/carlos/edge/device/retry.py:89-106 | start 100 ms, doubling, cap 250 ms: the sleeps are 100, 200 and 250 ms |
| Retry.ExecuteExample | lib/py_edge_device/carlos/edge/device/retry.py:89-106 | three `ValueError` failures with `(ValueError,)` then a value: the value is returned after three sleeps |
| ApiToken.NewApiToken | lib/py_edge_device/carlos/edge/device/storage/api_token.py:10-15 | a token is built exactly when, stripped of Unicode white space, it has at most 4096 characters; the stripped text and the expiry are kept, and a too long token is reported with its stripped length |
| ApiToken.StoredTokenIsTrimmed | lib/py_edge_interface/carlos/edge/interface/types.py:22-24 | the stored token is a contiguous piece of the given one that neither starts nor ends with white space, and only white space was cut off either end |
| ApiToken.RevalidateStored | lib/py_edge_device/carlos/edge/device/storage/api_token.py:25-31 | validating a stored token again, as `read_api_token` does with `model_validate`, gives it back unchanged |
| ApiToken.PaddedTokenAccepted | lib/py_edge_interface/carlos/edge/interface/types.py:22-24 | white space around a token is stripped before the length check: the bare token is kept when it has at most 4096 characters and its length is reported otherwise |
| ApiToken.PaddedTokenExample | lib/py_edge_interface/carlos/edge/interface/types.py:22-24 | `" token "` is stored as `token` |
| ApiToken.ReadRows | lib/py_edge_device/carlos/edge/device/storage/api_token.py:25-31 | an empty table gives no token, one row gives that row, more rows are an error |
| ApiToken.TokenStore.constructor | lib/py_edge_device/carlos/edge/device/storage/api_token.py:25-39 | the table starts empty |
| ApiToken.TokenStore.Read | lib/py_edge_device/carlos/edge/device/storage/api_token.py:25-31 | `read_api_token` gives what the one-or-none rule gives for the stored rows |
| ApiToken.TokenStore.Write | lib/py_edge_device/carlos/edge/device/storage/api_token.py:34-39 | `write_api_token` leaves exactly the written token in the table and returns it |
| ApiToken.ReadAfterWrite | lib/py_edge_device/carlos/edge/device/storage/api_token.py:25-39 | after a write, reading returns the written token whatever the table held before |
| ApiToken.IsValid | lib/py_edge_device/carlos/edge/device/storage/api_token.py:17-22 | an aware expiry raises, as comparing it with the naive `utcnow()` does; a naive one answers whether the current time minus 30 s lies before the expiry |
| ApiToken.ValidEarlier | lib/py_edge_device/carlos/edge/device/storage/api_token.py:17-22 | a token valid now was valid at every earlier time |
| ApiToken.ValidWithinSlack | lib/py_edge_device/carlos/edge/device/storage/api_token.py:17-22 | with a naive expiry, a token is valid exactly while less than 30 seconds have passed since its expiry time; with an aware one the check raises at every time |
| ApiToken.ValidityExamples | lib/py_edge_device/carlos/edge/device/storage/api_token.py:12-22 | expiring 30 s from now is valid, having expired 30 s ago is not, and an aware expiry 30 s ahead raises; 4096 letters and a blank build a token of the 4096 letters, 4097 letters are too long |
| ServerConnection.EdgeVersionMessage | lib/py_edge_server/carlos/edge/server/connection.py:37-44 | the handshake is a valid EDGE_VERSION message whose payload holds exactly the version |
| ServerConnection.BroadcastEvents | lib/py_edge_server/carlos/edge/server/connection.py:57-61 | one send per connected device, in connection order, through that device's protocol |
| ServerConnection.DeviceConnectionManager.constructor | lib/py_edge_server/carlos/edge/server/connection.py:14-15 | a new manager has no connection and has sent nothing |
| ServerConnection.DeviceConnectionManager.ConnectedDevices | lib/py_edge_server/carlos/edge/server/connection.py:17-21 | every connected id, once each, in the order the ids first connected |
| ServerConnection.DeviceConnectionManager.AddDevice | lib/py_edge_server/carlos/edge/server/connection.py:23-44 | the id maps to the new protocol, keeping its place when already connected, in which case the old protocol is disconnected first; then the new protocol is sent the handshake |
| ServerConnection.DeviceConnectionManager.Remove | lib/py_edge_server/carlos/edge/server/connection.py:46-49 | the id is dropped when present, nothing is sent, and an unknown id changes nothing |
| ServerConnection.DeviceConnectionManager.Broadcast | lib/py_edge_server/carlos/edge/server/connection.py:57-61 | the message goes once through every connected device's protocol in order; the connections are kept |
| ServerConnection.SendAll | lib/py_edge_server/carlos/edge/server/connection.py:60-61 | the loop over the connections sends what the broadcast rule states |
| ServerConnection.BroadcastReachesExactlyConnected | lib/py_edge_server/carlos/edge/server/connection.py:57-61 | a protocol receives the broadcast exactly when some connected device uses it, and only that message is sent |
| ServerConnection.BroadcastOncePerDevice | lib/py_edge_server/carlos/edge/server/connection.py:57-61 | when no two devices share a protocol, each connected device's protocol receives the message exactly once |
| ServerConnection.RemoveIdempotent | lib/py_edge_server/carlos/edge/server/connection.py:46-49 | removing twice is removing once, and removing an unknown id changes nothing |
| ServerConnection.ReAddKeepsPosition | lib/py_edge_server/carlos/edge/server/connection.py:32-34 | adding a, b and re-adding a lists a, b, with a's new protocol |
| Calendar.CivilRoundTrip | lib/py_carlos_database/carlos/database/utils/partitions.py:187-227 | the calendar date of any day number is a proper month and maps back to that day number |
| Calendar.DaysFromCivil | lib/py_carlos_database/carlos/database/utils/partitions.py:207 | the day number of a date; `CivilRoundTrip` states that `CivilFromDays` inverts it |
| Calendar.CivilFromDays | lib/py_carlos_database/carlos/database/utils/partitions.py:227 | the date of a day number, a valid month and day; `CivilRoundTrip` states that it inverts `DaysFromCivil` |
| Calendar.DateOfTimestamp | lib/py_carlos_database/carlos/database/utils/partitions.py:227 | `timestamp.year` and `timestamp.month`; `DateOfTimestampInMonth` states that the timestamp lies in that month |
| Calendar.MonthContains | lib/py_carlos_database/carlos/database/utils/partitions.py:207-227 | every day lies between the first day of its date's month and the first day of the next month |
| Calendar.DateOfTimestampInMonth | lib/py_carlos_database/carlos/database/utils/partitions.py:221-227 | the `year`, `month` and `day` of an instant form a real date, which names the instant's day and whose month contains it |
| Calendar.YearContainsMonth | lib/py_carlos_database/carlos/database/utils/partitions.py:169-179 | every month of a year lies between January 1 of that year and January 1 of the next |
| Calendar.JanuaryBeforeMarch | lib/py_carlos_database/carlos/database/utils/partitions.py:173 | January 1 is before March 1 of the same year, 400-year era boundaries included |
| Calendar.DateExample | lib/py_carlos_database/carlos/database/utils/partitions.py:227 | day 18934 is 2021-11-03 |
| Calendar.DayNumberExample | lib/py_carlos_database/carlos/database/utils/partitions.py:207 | 2021-11-03 is day 18934 and 1970-01-01 is day 0 |
| TimestampUtils.ValidateUtc | lib/py_carlos_database/carlos/database/utils/timestamp_utils.py:36-56 | a naive value is refused with `Timezone must be set`; an aware one is accepted as the same instant |
| TimestampUtils.Interpolate | lib/py_carlos_database/carlos/database/utils/timestamp_utils.py:71-103 | with comparable dates, a target inside a non-empty range always yields a value |
| TimestampUtils.InterpolateErrors | lib/py_carlos_database/carlos/database/utils/timestamp_utils.py:94-103 | the start after the end, a target outside the range, and a zero-length range are each refused exactly when that guard is the first to fail |
| TimestampUtils.InterpolateEnds | lib/py_carlos_database/carlos/database/utils/timestamp_utils.py:100-103 | the start gives the start value and the end the end value |
| TimestampUtils.InterpolateBetween | lib/py_carlos_database/carlos/database/utils/timestamp_utils.py:100-103 | the interpolated value lies between the start and the end value |
| TimestampUtils.InterpolateLinear | lib/py_carlos_database/carlos/database/utils/timestamp_utils.py:100-103 | equal steps of time give equal steps of value |
| TimestampUtils.InterpolateExamples | lib/py_carlos_database/carlos/database/utils/timestamp_utils_test.py:19-73 | the values of the source's tests, including a target before the start and a start after the end refused |
| Text.NatToDecimal | lib/py_carlos_database/carlos/database/utils/partitions.py:148-154 | `str(n)` of a non-negative integer is a non-empty string of digits without a leading zero |
| Text.IntToDecimal | lib/py_carlos_database/carlos/database/utils/partitions.py:201 | `str(i)` is non-empty and starts with `-` exactly for a negative integer |
| Text.DecimalRoundTrip | lib/py_carlos_database/carlos/database/utils/partitions.py:148-154 | reading back the decimal text of a number gives the number |
| Text.DecimalWidth | lib/py_carlos_database/carlos/database/utils/partitions.py:124-126 | a number below `10^k` has at most `k` digits, so `:04d` pads every number below 10000 |
| Text.ZeroPadDecimalValue | lib/py_carlos_database/carlos/database/utils/partitions.py:124-126 | zero-padding a number's digits keeps them the digits of the same number |
| Text.ZeroPad | lib/py_carlos_database/carlos/database/utils/partitions.py:124-126 | padding reaches the width unless the text is longer, ends with the text and starts with zeros only |
| Text.FormatZeroPadded | lib/py_carlos_database/carlos/database/utils/partitions.py:124-126 | `f"{i:0Wd}"` is at least the width long and ends with the digits of the magnitude, after a leading `-` for a negative number |
| Text.NatToHex | lib/py_edge_interface/carlos/edge/interface/device/config.py:117 | `hex(n)` without its prefix is non-empty, lower-case and without a leading zero |
| Text.HexRoundTrip | lib/py_edge_interface/carlos/edge/interface/device/config.py:117 | reading back the hexadecimal text of a number gives the number |
| Text.ParseHex | lib/py_edge_interface/carlos/edge/interface/device/driver_config.py:142-145 | `int(s, 16)` succeeds only on a non-empty text, and exactly when the text once stripped of white space is a sign, a prefix and digits with single underscores (see `ParseUnpaddedHex`) |
| Text.ParseUnpaddedHex | lib/py_edge_interface/carlos/edge/interface/device/driver_config.py:143 | a text without surrounding space is read exactly when what follows its sign, its `0x`/`0X` prefix and one underscore after the prefix is hexadecimal digits with single underscores between them; the value's magnitude is the digits' value, and it is negative only after a `-` and positive only without one |
| Text.HexDigitsAreGroups | lib/py_edge_interface/carlos/edge/interface/device/driver_config.py:143 | plain hexadecimal digits form a literal, worth their plain value |
| Text.ParseHexUnpadded | lib/py_edge_interface/carlos/edge/interface/device/driver_config.py:143 | a text with no white space at either end is read as it stands |
| Text.ParseHexOfDigits | lib/py_edge_interface/carlos/edge/interface/device/driver_config.py:143 | a text of hexadecimal digits is read as their value |
| Text.ParseHexOfPrefixed | lib/py_edge_interface/carlos/edge/interface/device/driver_config.py:157 | a text of hexadecimal digits after `0x` is read as their value |
| Text.ParseHexIgnoresPadding | lib/py_edge_interface/carlos/edge/interface/device/driver_config.py:143 | white space before and after a text does not change what `int()` reads |
| Text.ParseHexOfSigned | lib/py_edge_interface/carlos/edge/interface/device/driver_config.py:143 | `+` before digits gives their value and `-` its negation |
| Text.UnderscoreExamples | lib/py_edge_interface/carlos/edge/interface/device/driver_config.py:143 | `4_4` and `0x_44` read as 0x44; a doubled, leading or trailing underscore, or a bare prefix, is refused |
| Text.Hex2 | lib/py_edge_interface/carlos/edge/interface/device/driver_config.py:152 | `f"{n:02x}"` is at least two hexadecimal digits |
| Text.Hex2Value | lib/py_edge_interface/carlos/edge/interface/device/driver_config.py:152 | the two-digit text has the value of the number |
| Text.ParseHexOfHex | lib/py_edge_interface/carlos/edge/interface/device/config.py:117 | `int(hex(n), 16)` is `n` |
| Text.ParseHexOfHex2 | lib/py_edge_interface/carlos/edge/interface/device/driver_config.py:152-157 | `int(f"0x{n:02x}", 16)` is `n` |
| Uniqueness.CollectDuplicates | lib/py_edge_interface/carlos/edge/interface/device/driver.py:256-261 | the seen-set comprehension reports every element that occurred earlier, once per repeated occurrence, in list order |
| Uniqueness.DuplicatesEmptyIff | lib/py_edge_interface/carlos/edge/interface/device/driver.py:256-266 | nothing is reported exactly when no element occurs twice |
| Uniqueness.InDuplicatesIff | lib/py_edge_interface/carlos/edge/interface/device/driver.py:256-266 | an element is reported exactly when it occurs at least twice |
| Uniqueness.AppendIfAbsent | lib/py_edge_server/carlos/edge/server/connection.py:34 | assigning a dictionary key appends it unless present, in which case it keeps its place |
| Uniqueness.AppendIfAbsentKeepsNoDuplicates | lib/py_edge_server/carlos/edge/server/connection.py:34 | assigning a key keeps the keys free of duplicates |
| Uniqueness.Without | lib/py_edge_server/carlos/edge/server/connection.py:49 | removal never lengthens the key list, keeps exactly the elements other than the key, and changes nothing when the key is absent |
| Uniqueness.WithoutProperties | lib/py_edge_server/carlos/edge/server/connection.py:49 | `pop(key, None)` keeps exactly the other keys, keeps them duplicate-free, and changes nothing for a missing key |
| Uniqueness.WithoutSplices | lib/py_edge_server/carlos/edge/server/connection.py:49 | in a duplicate-free key list, removing a key splices it out and keeps the order of the others |
| Timeseries.NewTimeseriesData | lib/py_carlos_database/carlos/database/data/timeseries.py:29-59 | the data is built exactly when every timestamp is aware and there are as many values as timestamps; a naive timestamp is reported first |
| Timeseries.NewDatetimeRange | lib/py_carlos_database/carlos/database/data/timeseries.py:62-89 | a range is built exactly when both ends are aware and the start is before the end; a start after the end and an empty range are the two order errors |
| Timeseries.FromTimedelta | lib/py_carlos_database/carlos/database/data/timeseries.py:91-101 | the range starts at the given start or now and lasts `td`; it is built exactly when that start is aware and `td` is positive |
| Timeseries.Coalesce | lib/py_carlos_database/carlos/database/data/timeseries.py:210-213 | the first value wins unless it is `None` |
| Timeseries.DistinctTimestamps | lib/py_carlos_database/carlos/database/data/timeseries.py:183-207 | the dictionary's keys hold every timestamp exactly once |
| Timeseries.BuildValuesToInsert | lib/py_carlos_database/carlos/database/data/timeseries.py:175-207 | the loop succeeds exactly when every timestamp is aware, and then yields the rows the coalescing rule defines |
| Timeseries.BuildStep | lib/py_carlos_database/carlos/database/data/timeseries.py:184-203 | each sample appends its timestamp to the keys unless already seen, and an aware timestamp keeps every timestamp so far aware |
| Timeseries.AddSample | lib/py_carlos_database/carlos/database/data/timeseries.py:184-205 | a timestamp seen before has its value coalesced and an unseen aware one is added; an unseen naive one stops the loop, and then the series is not all aware; otherwise the loop state holds one sample further |
| Timeseries.CoalescedStep | lib/py_carlos_database/carlos/database/data/timeseries.py:185-190 | one more sample changes only the value of its own timestamp, which becomes the old value coalesced with the new sanitized one |
| Timeseries.DictionaryRows | lib/py_carlos_database/carlos/database/data/timeseries.py:207 | one row per key, in insertion order, each holding that key's stored value |
| Timeseries.CoalescedAbsent | lib/py_carlos_database/carlos/database/data/timeseries.py:183-207 | a timestamp without samples has no value |
| Timeseries.InsertedRowsProperties | lib/py_carlos_database/carlos/database/data/timeseries.py:175-207 | the rows carry the given id and exactly the samples' distinct timestamps, once each and in order of first occurrence |
| Timeseries.CoalescedIsFirstNonNone | lib/py_carlos_database/carlos/database/data/timeseries.py:185-213 | a timestamp's value is the first non-`None` sanitized value among its samples, and `None` exactly when all are `None` |
| Timeseries.CoalesceNoneExample | lib/py_carlos_database/carlos/database/data/timeseries.py:185-190 | two samples at one instant, the first `None`: the row takes the second's value |
| Timeseries.CoalesceFirstExample | lib/py_carlos_database/carlos/database/data/timeseries.py:185-190 | two samples at one instant with values: the row keeps the first |
| Timeseries.ChunksProperties | lib/py_carlos_database/carlos/database/data/timeseries.py:145 | the batches put back together are the samples; each holds 1 to 1000 samples and all but the last exactly 1000 |
| Timeseries.Chunks | lib/py_carlos_database/carlos/database/data/timeseries.py:145 | the batches of a list; `ChunksProperties` states that they concatenate to the list, are non-empty, and all but the last hold exactly the batch size |
| Timeseries.ChunksExample | lib/py_carlos_database/carlos/database/data/timeseries.py:104-145 | 2500 samples are inserted as batches of 1000, 1000 and 500 |
| Timeseries.Zip | lib/py_carlos_database/carlos/database/data/timeseries.py:145 | `zip` pairs each timestamp with the value of its index |
| Timeseries.ExtractedPartitionsHoldRows | lib/py_carlos_database/carlos/database/data/timeseries.py:225-238 | every row lies within one of the extracted monthly partitions, and every extracted partition belongs to the timeseries table and holds a row |
| Timeseries.ExtractPartitions | lib/py_carlos_database/carlos/database/data/timeseries.py:225-238 | the monthly partitions of the rows; `ExtractedPartitionsHoldRows` states that each row lies in one of them and each belongs to a row |
| Timeseries.UpsertProperties | lib/py_carlos_database/carlos/database/data/timeseries.py:150-157 | an upsert keeps every key, adds the rows' keys and nothing else, leaves other keys' values alone and stores each row's value when keys are distinct |
| Timeseries.Upsert | lib/py_carlos_database/carlos/database/data/timeseries.py:150-157 | the upsert of rows into the table; `UpsertProperties` states that it keeps every key and adds exactly the rows' keys |
| Timeseries.CleanBatchesIs | lib/py_carlos_database/carlos/database/data/timeseries.py:145-148 | the batches committed are exactly those before the first batch with a naive timestamp |
| Timeseries.TimeseriesStore.constructor | lib/py_carlos_database/carlos/database/data/timeseries.py:113-172 | the store starts with no rows and no partitions |
| Timeseries.TimeseriesStore.InsertBatch | lib/py_carlos_database/carlos/database/data/timeseries.py:156-171 | after the insert, retried once the missing partitions exist, the table is the upsert of the batch and the batch's partitions exist, so every row lies in a partition |
| Timeseries.TimeseriesStore.AddTimeseries | lib/py_carlos_database/carlos/database/data/timeseries.py:113-172 | unequal lengths change nothing; otherwise the batches before the first one with a naive timestamp are upserted and committed, and the call succeeds exactly when there is none |
| Timeseries.UpsertBatchesStoresSamples | lib/py_carlos_database/carlos/database/data/timeseries.py:145-171 | upserting the batches stores a key for every sample of every batch and keeps every earlier key |
| Timeseries.AddTimeseriesStoresEverySample | lib/py_carlos_database/carlos/database/data/timeseries.py:113-172 | with equal lengths and aware timestamps every batch is committed and every timestamp has a row under the id |
| Timeseries.SeriesRows | lib/py_carlos_database/carlos/database/data/timeseries.py:348-387 | a series' rows pair its id with each of its timestamps and values |
| Timeseries.ConcatAppend | lib/py_carlos_database/carlos/database/data/timeseries.py:369-374 | adding a series appends its rows |
| Timeseries.ConcatExtendLast | lib/py_carlos_database/carlos/database/data/timeseries.py:384-385 | extending the last series appends one row |
| Timeseries.MapStartSeries | lib/py_carlos_database/carlos/database/data/timeseries.py:368-379 | a row with a different id starts a new series and keeps the grouping invariant |
| Timeseries.MapExtendSeries | lib/py_carlos_database/carlos/database/data/timeseries.py:381-385 | a row with the current id extends the current series and keeps the grouping invariant |
| Timeseries.MapRowsToTimeseriesData | lib/py_carlos_database/carlos/database/data/timeseries.py:348-387 | the series are maximal runs of one id that rebuild the rows in order, nothing exactly for no rows, the same ids as the rows, and increasing ids for sorted rows |
| Timeseries.GetTimeseries | lib/py_carlos_database/carlos/database/data/timeseries.py:244-332 | no ids and a range over 30 days are refused; otherwise the call succeeds exactly when every id has data or every id exists, the missing ids are reported, and the series rebuild the rows with one series per requested id |
| Timeseries.AllDataIffCount | lib/py_carlos_database/carlos/database/data/timeseries.py:304-306 | the early return's count test holds exactly when every requested id has data |
| Timeseries.MissingIds | lib/py_carlos_database/carlos/database/data/timeseries.py:312-317 | the missing ids are the requested ids that do not exist |
| Timeseries.NoMissingIds | lib/py_carlos_database/carlos/database/data/timeseries.py:312-317 | with nothing missing, the existing ids are the requested ones |
| Timeseries.IdsWithoutData | lib/py_carlos_database/carlos/database/data/timeseries.py:321-323 | the ids without data are the existing ids minus the id of every series, and each removal finds its id |
| Timeseries.AppendEmptySeries | lib/py_carlos_database/carlos/database/data/timeseries.py:327-330 | the ids without data each get one empty series after the others, so every existing id has exactly one series and the rows are unchanged |
| Timeseries.IncreasingIdsAreDistinct | lib/py_carlos_database/carlos/database/data/timeseries.py:348-387 | series of increasing ids have distinct ids |
| Partitions.BaseTableName | lib/py_carlos_database/carlos/database/utils/partitions.py:27-35 | the name is `schema.table`, or the bare table name when the schema is absent or empty |
| Partitions.NewBucket | lib/py_carlos_database/carlos/database/utils/partitions.py:102-104 | a bucket partition is built exactly when its size is at least 1, and the error names the size |
| Partitions.FirstOfMonthLiteral | lib/py_carlos_database/carlos/database/utils/partitions.py:207 | `date(year, month, 1)` exists exactly for years 1 to 9999 and months 1 to 12; otherwise it raises |
| Partitions.FirstOfMonthLiteralReadsBack | lib/py_carlos_database/carlos/database/utils/partitions.py:207 | the literal is a quoted `YYYY-MM-01` whose digit fields read back as the year and the month |
| Partitions.LowerAscii | lib/py_carlos_database/carlos/database/utils/partitions.py:130 | lower-casing maps exactly the ASCII capitals to their small letters |
| Partitions.BucketPartitionTableName | lib/py_carlos_database/carlos/database/utils/partitions.py:112-130 | the loop over the break points, stopping at the first that divides the size, gives the bucket name |
| Partitions.QuarterlyFromTimestamp | lib/py_carlos_database/carlos/database/utils/partitions.py:85-92 | the quarterly partition of a timestamp is in the given table and the timestamp's year |
| Partitions.YearlyFromTimestamp | lib/py_carlos_database/carlos/database/utils/partitions.py:181-187 | the yearly partition of a timestamp is in the given table and the timestamp's year |
| Partitions.YearlyPartitionHoldsTimestamp | lib/py_carlos_database/carlos/database/utils/partitions.py:169-187 | the yearly partition chosen for a timestamp holds it: the timestamp's day is from January 1 of its year up to January 1 of the next year |
| Partitions.MonthlyFromTimestamp | lib/py_carlos_database/carlos/database/utils/partitions.py:221-227 | the monthly partition of a timestamp is in the given table, the timestamp's year and the timestamp's month |
| Partitions.QuarterOfTimestamp | lib/py_carlos_database/carlos/database/utils/partitions.py:91 | a timestamp's quarter is 1 to 4 and holds the timestamp's month |
| Partitions.MonthlyPartitionHoldsTimestamp | lib/py_carlos_database/carlos/database/utils/partitions.py:203-227 | the monthly partition chosen for a timestamp holds it: the timestamp's day is from the first of its month up to the first of the next month |
| Partitions.UpperBoundRollsOver | lib/py_carlos_database/carlos/database/utils/partitions.py:209-219 | after the fourth quarter, after December and after a year the upper bound is January 1 of the next year |
| Partitions.MonthsAreContiguous | lib/py_carlos_database/carlos/database/utils/partitions.py:203-219 | a month's upper bound is the next month's lower bound |
| Partitions.QuartersAreContiguous | lib/py_carlos_database/carlos/database/utils/partitions.py:67-83 | a quarter's upper bound is the next quarter's lower bound |
| Partitions.YearsAreContiguous | lib/py_carlos_database/carlos/database/utils/partitions.py:169-179 | a year's upper bound is the next year's lower bound |
| Partitions.BucketBounds | lib/py_carlos_database/carlos/database/utils/partitions.py:106-142 | a bucket holds its id, spans exactly the bucket size, and the next bucket starts where it ends |
| Partitions.LowerBound | lib/py_carlos_database/carlos/database/utils/partitions.py:45-48 | the start of a partition's range; `MonthsAreContiguous`, `QuartersAreContiguous`, `YearsAreContiguous` and `BucketBounds` state that it is where the previous partition ends |
| Partitions.UpperBound | lib/py_carlos_database/carlos/database/utils/partitions.py:50-53 | the end of a partition's range; `UpperBoundRollsOver` states the roll-over past December and `BucketBounds` that a bucket ends where the next begins |
| Partitions.SameQuarterSamePartition | lib/py_carlos_database/carlos/database/utils/partitions.py:85-92 | two timestamps in the same quarter of the same year give the same partition |
| Partitions.BucketSuffixChars | lib/py_carlos_database/carlos/database/utils/partitions.py:116-128 | a bucket suffix holds only digits, `-`, `_`, `m` and `k` |
| Partitions.BucketSuffix | lib/py_carlos_database/carlos/database/utils/partitions.py:116-128 | the bucket suffix before lower-casing; `BucketSuffixChars` states that it holds only digits, `m`, `k` and `_`, and the suffix examples its three forms |
| Partitions.PartitionTableName | lib/py_carlos_database/carlos/database/utils/partitions.py:39-42 | the table name of a partition; `QuarterlyNameExample` and `BucketPartitionTableName` state it for a quarterly partition and a bucket |
| Partitions.BucketSuffixIsLowerCase | lib/py_carlos_database/carlos/database/utils/partitions.py:130 | lower-casing a bucket suffix changes nothing |
| Partitions.QuarterlyExample | lib/py_carlos_database/carlos/database/utils/partitions_test.py:10-22 | a timestamp of 2021-11-03 lies in the fourth quarter of 2021 |
| Partitions.QuarterlyNameExample | lib/py_carlos_database/carlos/database/utils/partitions_test.py:16-17 | the fourth quarter of 2021 of the timeseries table is named `carlos.timeseries_y2021q4` |
| Partitions.QuarterlyBoundsExample | lib/py_carlos_database/carlos/database/utils/partitions_test.py:18-19 | the fourth quarter of 2021 runs from `'2021-10-01'` to `'2022-01-01'` |
| Partitions.MillionsSuffixExample | lib/py_carlos_database/carlos/database/utils/partitions.py:116-128 | id 2500000 in buckets of a million is named `0002m_0003m` |
| Partitions.ThousandsSuffixExample | lib/py_carlos_database/carlos/database/utils/partitions.py:116-128 | id 1500 in buckets of a thousand is named `0001k_0002k` |
| Partitions.RawSuffixExample | lib/py_carlos_database/carlos/database/utils/partitions.py:120 | id 1200 in buckets of 500 is named by its raw bounds `1000_1500` |
| Text.StripLeft | lib/py_carlos_database/carlos/database/schema.py:26 | the result is a suffix of the input that does not start with a character of the class, and only such characters were cut off the front |
| Text.StripRight | lib/py_carlos_database/carlos/database/schema.py:26 | the result is a prefix of the input that does not end with a character of the class, and only such characters were cut off the back |
| Text.StripEnds | lib/py_carlos_database/carlos/database/schema.py:26 | a stripped text neither starts nor ends with a character of the class |
| Text.StripSlice | lib/py_carlos_database/carlos/database/schema.py:26 | the stripped text is a contiguous slice of the input, with only characters of the class removed on either side |
| Text.StripIdempotent | lib/py_carlos_database/carlos/database/schema.py:26 | stripping an already stripped text changes nothing |
| Text.StripUnpadded | lib/py_carlos_database/carlos/database/schema.py:26 | a text that neither starts nor ends with a character of the class is its own stripped form |
| Text.StripIgnoresPadding | lib/py_carlos_database/carlos/database/schema.py:26 | characters of the class around a text do not change what it strips to |
| DeviceManagement.Strip | lib/py_carlos_database/carlos/database/schema.py:26 | `str_strip_whitespace`; `Text.StripEnds`, `Text.StripSlice` and `DeviceManagement.PaddingStrips` state what it removes |
| DeviceManagement.PaddingStrips | lib/py_carlos_database/carlos/database/schema.py:26 | one Unicode white-space character on each side of an unpadded name is stripped, and nothing else |
| DeviceManagement.NewDeviceCreate | lib/py_carlos_database/carlos/database/device/device_management.py:30-40 | a device is accepted exactly when its display name, stripped of Unicode white space, has at most 255 and its stripped description at most 5000 characters; the accepted fields are the stripped ones; a too long name is reported with its length |
| DeviceManagement.NewDevice | lib/py_carlos_database/carlos/database/device/device_management.py:47-57 | an existing device is valid exactly when its create fields are valid and both its registration and last-seen timestamps carry a timezone; the id and last-seen time are kept |
| DeviceManagement.IsOnline | lib/py_carlos_database/carlos/database/device/device_management.py:27-66 | a device that was never seen is not online |
| DeviceManagement.IsOnlineExamples | lib/py_carlos_database/carlos/database/device/device_management_test.py:28-45 | never seen is offline, seen now is online, seen a day ago is offline |
| DeviceManagement.IsOnlineBoundary | lib/py_carlos_database/carlos/database/device/device_management.py:27-66 | online means seen strictly less than five minutes before now, so exactly five minutes ago is offline and a future timestamp is online |
| DeviceManagement.IsOnlineMonotone | lib/py_carlos_database/carlos/database/device/device_management.py:63-66 | an offline device stays offline as time passes without a new sighting |
| DeviceManagement.DisplayNameLimitExample | lib/py_carlos_database/carlos/database/device/device_management.py:33-37 | a 300-character name is refused, while a 255-character name padded with spaces is accepted because it is stripped first |
| DeviceManagement.PaddedNameStrips | lib/py_carlos_database/carlos/database/device/device_management.py:33-37 | a 255-character name padded on both sides with any Unicode white-space character is accepted as the bare name |
| DeviceManagement.NonAsciiPaddingExample | lib/py_carlos_database/carlos/database/device/device_management.py:33-37 | a no-break space and an ideographic space around a 255-character name are stripped like blanks |
| DataReduction.IsValueChangedCases | services/api/carlos/api/utils/data_reduction.py:64-89 | a threshold of zero or less always counts as a change; two `None`s are unchanged; a switch between `None` and a number is a change; equal numbers are unchanged; any change to or from zero is a change; otherwise the change counts when it exceeds the threshold relative to the previous value's magnitude |
| DataReduction.IsValueChangedAsWritten | services/api/carlos/api/utils/data_reduction.py:64-89 | the change test as written; `IsValueChangedAsWrittenCases` states its cases and `NegativeValueFinding` the negative previous value it misjudges |
| DataReduction.IsValueChangedAsWrittenCases | services/api/carlos/api/utils/data_reduction.py:64-89 | as written, the first five cases are those of the corrected test, and two different non-zero values count as changed exactly when their difference exceeds `threshold * previous_value` |
| DataReduction.AsWrittenAgreesUnlessNegative | services/api/carlos/api/utils/data_reduction.py:83-89 | the two forms agree whenever the previous value is absent or not negative, and as written a negative previous value makes every different value a change |
| DataReduction.IsValueChanged | services/api/carlos/api/utils/data_reduction.py:83-89 | the change test as intended; `IsValueChangedSignSymmetric` states that mirroring both values about zero does not change the verdict |
| DataReduction.IsValueChangedSignSymmetric | services/api/carlos/api/utils/data_reduction.py:83-89 | with the magnitude corrected, negating both values never alters whether they count as changed |
| DataReduction.NegativeValueFinding | services/api/carlos/api/utils/data_reduction.py:89 | for a negative previous value the code as written counts a 0.01% step as a change, the corrected test does not, and the same step on positive values is not a change |
| DataReduction.IsValueChangedExamples | services/api/carlos/api/utils/data_reduction_test.py:13-42 | every row of the change-test table: both `None` unchanged, a `None` on one side changed, threshold zero always changed, more than 1% changed, less than 1% unchanged, any step off zero changed |
| DataReduction.Halve | services/api/carlos/api/utils/data_reduction.py:37 | half of a duration in microseconds lies strictly inside a gap of at least two microseconds and is within half a microsecond of the exact half |
| DataReduction.Append | services/api/carlos/api/utils/data_reduction.py:53-54 | appending a sample leaves it as the last timestamp and value of the output and keeps the loop's other variables |
| DataReduction.MarkGap | services/api/carlos/api/utils/data_reduction.py:35-38 | marking a gap only appends to the output and keeps the loop's other variables |
| DataReduction.Reduce | services/api/carlos/api/utils/data_reduction.py:26-57 | after `k` loop iterations the output still starts with the first input sample, the previous timestamp is sample `k`, and the last added index is below `k` |
| DataReduction.Optimize | services/api/carlos/api/utils/data_reduction.py:9-61 | the result keeps the series id and equal-length arrays; fewer than two samples come back unchanged; otherwise the first input sample is the first output sample |
| DataReduction.OptimizeTimeseries | services/api/carlos/api/utils/data_reduction.py:20-61 | the loop computes exactly the reduction specified by `Optimize` with the corrected change and last-sample tests |
| DataReduction.AppendSound | services/api/carlos/api/utils/data_reduction.py:51-54 | appending an input sample later than the output's last timestamp keeps the output strictly increasing and made of input samples |
| DataReduction.IncreasingApart | services/api/carlos/api/utils/data_reduction.py:32-35 | in a strictly increasing series every earlier timestamp is below every later one |
| DataReduction.MarkGapSound | services/api/carlos/api/utils/data_reduction.py:35-38 | with a split threshold of at least one microsecond the gap marker falls strictly between the previous output timestamp and the next sample |
| DataReduction.OptimizeStep | services/api/carlos/api/utils/data_reduction.py:32-57 | one pass of the loop over the arrays makes exactly the step the reduction specifies |
| DataReduction.OptimizeIsReduce | services/api/carlos/api/utils/data_reduction.py:20-61 | with two samples or more the optimisation is the reduction state after the last loop pass |
| DataReduction.StepKeepsInvariant | services/api/carlos/api/utils/data_reduction.py:32-57 | one loop iteration keeps the output increasing, made of input samples and markers, and ahead of the next sample |
| DataReduction.Step | services/api/carlos/api/utils/data_reduction.py:32-57 | one pass of the reduction loop; `StepKeepsInvariant` states that the kept samples stay strictly increasing and taken from the input |
| DataReduction.ReduceKeepsInvariant | services/api/carlos/api/utils/data_reduction.py:32-57 | the loop invariant holds after every number of iterations |
| DataReduction.OptimizeKeepsOrder | services/api/carlos/api/utils/data_reduction.py:9-61 | for strictly increasing input timestamps and a non-zero split threshold the output timestamps are strictly increasing, and every output value comes from an input sample at the same timestamp, in both the written and the corrected form |
| DataReduction.OptimizeKeepsLastSample | services/api/carlos/api/utils/data_reduction.py:44 | with the corrected last-sample test, the output always ends with the last input sample |
| DataReduction.TrailingRunFinding | services/api/carlos/api/utils/data_reduction.py:44 | two equal samples a minute apart: as written the second one is dropped, corrected it is kept |
| DataReduction.ZeroSplitDuplicatesTimestamp | services/api/carlos/api/utils/data_reduction.py:24-38 | with a split threshold of zero, a one-microsecond gap puts the `None` marker on the previous sample's own timestamp |
| DataReduction.DuplicateAtBeginningExample | services/api/carlos/api/utils/data_reduction_test.py:67-80 | values 1, 1, 2 a minute apart reduce to the first and last sample |
| DataReduction.GapMarkerExample | services/api/carlos/api/utils/data_reduction_test.py:96-109 | a two-minute gap with a 30-second split threshold gets a `None` exactly in its middle |
| DataReduction.StepsFirstRun | services/api/carlos/api/utils/data_reduction_test.py:81-95 | after six samples of the step series the flat run of 2 has been entered and only its first sample is kept so far |
| DataReduction.StepsExample | services/api/carlos/api/utils/data_reduction_test.py:81-95 | the step series 1,2,2,2,2,2,2,3,3,4 reduces to the samples at 0, 1, 6, 7, 8 and 9 seconds, keeping the first and last sample of each flat run |
| Docker.Split | lib/py_dev_dependencies/devtools/docker.py:42-64 | `str.split` returns at least one piece and no piece contains the separator |
| Docker.SplitJoin | lib/py_dev_dependencies/devtools/docker.py:42-64 | splitting yields one piece more than the separators in the string, and joining the pieces restores the string |
| Docker.JoinSplit | lib/py_dev_dependencies/devtools/docker.py:42-64 | joining separator-free pieces and splitting again gives back the same pieces |
| Docker.ValidateImage | lib/py_dev_dependencies/devtools/docker.py:34-49 | an accepted image is returned unchanged |
| Docker.ValidateImageIff | lib/py_dev_dependencies/devtools/docker.py:34-49 | an image is accepted if and only if it is a non-empty name, one `:`, and a non-empty tag, with no other `:` |
| Docker.ValidateImageEmptyExamples | lib/py_dev_dependencies/devtools/docker_test.py:15-20 | the empty image is refused as empty and `nginx` as missing its tag |
| Docker.ValidateImageEmptyNameExample | lib/py_dev_dependencies/devtools/docker_test.py:16 | `:latest` is refused for its empty name |
| Docker.ValidateImageEmptyTagExample | lib/py_dev_dependencies/devtools/docker_test.py:17 | `naginx:` is refused for its empty tag |
| Docker.ValidateImageAcceptedExample | lib/py_dev_dependencies/devtools/docker.py:34-49 | `nginx:latest` is accepted |
| Docker.ValidateImageRegistryPortExample | lib/py_dev_dependencies/devtools/docker.py:42 | an image with a registry port, `localhost:5000/nginx:latest`, is refused because it splits into three pieces |
| Docker.ValidatePortKeyIff | lib/py_dev_dependencies/devtools/docker.py:63-68 | a port key is accepted if and only if it is a non-empty run of digits, one `/`, and one of Docker's protocols `tcp`, `udp` or `sctp` |
| Docker.CheckPortKeyIff | lib/py_dev_dependencies/devtools/docker.py:63-68 | for any list of protocol names without `/`, a port key passes exactly when it is a non-empty run of digits, one `/`, and a listed protocol |
| Docker.ValidatePortKeyAsWritten | lib/py_dev_dependencies/devtools/docker.py:63-68 | as written, a port key passes exactly when it is a non-empty run of digits, one `/`, and `tcp`, `upd` or `sctp` |
| Docker.ValidatePortKey | lib/py_dev_dependencies/devtools/docker.py:63-68 | the check of one container port key; `ValidatePortKeyIff` states that it accepts exactly `digits/protocol` with one `/` and a known protocol |
| Docker.CheckPorts | lib/py_dev_dependencies/devtools/docker.py:59-70 | for a given protocol list, the mapping is accepted if and only if every container port key passes, and an accepted mapping is returned unchanged |
| Docker.ValidatePortsAsWritten | lib/py_dev_dependencies/devtools/docker.py:59-70 | as written, the mapping is accepted if and only if every key passes the check with `upd`, and is then returned unchanged |
| Docker.ValidatePorts | lib/py_dev_dependencies/devtools/docker.py:59-70 | with Docker's `udp`, the mapping is accepted if and only if every container port key is accepted, and an accepted mapping is returned unchanged |
| Docker.ValidatePortsFirstError | lib/py_dev_dependencies/devtools/docker.py:63-68 | a refused mapping reports the error of its first bad key |
| Docker.ValidatePortsIgnoresHosts | lib/py_dev_dependencies/devtools/docker.py:63-70 | two mappings with the same container port keys are accepted or refused alike, with the same error, whatever their host ports |
| Docker.PortKeyMissingProtocolExample | lib/py_dev_dependencies/devtools/docker_test.py:21 | `80` has no protocol and is refused |
| Docker.PortKeyUnknownProtocolExample | lib/py_dev_dependencies/devtools/docker_test.py:22-24 | `80/prot` is refused for its protocol |
| Docker.PortKeyNotIntegerExample | lib/py_dev_dependencies/devtools/docker_test.py:25-30 | `eighty/tcp` is refused because the port is not an integer |
| Docker.PortKeyUdpExample | lib/py_dev_dependencies/devtools/docker.py:67 | as written, `80/udp` is refused while the misspelt `80/upd` is accepted |
| Docker.PortKeyUdpAccepted | lib/py_dev_dependencies/devtools/docker.py:67-68 | with Docker's protocol names, `80/udp` is accepted and `80/upd` refused for its protocol |
| Docker.PortsUdpExample | lib/py_dev_dependencies/devtools/docker.py:59-70 | the mapping `{"53/udp": 53}` is refused for its protocol as written and accepted with Docker's names |
| Docker.PortKeyFormsAgree | lib/py_dev_dependencies/devtools/docker.py:63-68 | the check as written and the corrected one agree on every `port/protocol` key whose protocol is neither `udp` nor `upd` |
| Docker.PortKeyAcceptedExample | lib/py_dev_dependencies/devtools/docker.py:298 | the port key `5432/tcp` that the Postgres container uses is accepted |
| ContextManager.Saved | lib/py_dev_dependencies/devtools/context_manager.py:40-42 | one saved entry is kept per managed name, in the mapping's order |
| ContextManager.EnteredValues | lib/py_dev_dependencies/devtools/context_manager.py:41-45 | inside the context each managed variable holds the new value when it was unset, empty or overwriting is on, and keeps its old value otherwise; no other variable changes |
| ContextManager.SavedValues | lib/py_dev_dependencies/devtools/context_manager.py:42 | the saved value of each managed name is its value before entering, `None` when it was unset |
| ContextManager.RestoredAfterEnter | lib/py_dev_dependencies/devtools/context_manager.py:47-54 | exiting restores the environment from before entering exactly, removing the names that were unset, whatever happened to the managed names in between, as long as none of them was deleted |
| ContextManager.EnterExitRoundTrip | lib/py_dev_dependencies/devtools/context_manager.py:35-54 | entering and then exiting leaves the environment as it was, with no error |
| ContextManager.EnteredExamples | lib/py_dev_dependencies/devtools/context_manager_test.py:11-32 | a new variable is set; an existing one is kept without overwrite and replaced with it; an empty value counts as unset; an empty mapping changes nothing |
| ContextManager.EnvironmentContext.constructor | lib/py_dev_dependencies/devtools/context_manager.py:13-33 | the context stores its mapping and overwrite flag and starts with nothing saved |
| ContextManager.EnvironmentContext.Enter | lib/py_dev_dependencies/devtools/context_manager.py:35-45 | the loop overwrites the saved values with those of the environment before entering and leaves the environment as `Entered` describes; the working directory is untouched |
| ContextManager.EnvironmentContext.Exit | lib/py_dev_dependencies/devtools/context_manager.py:47-54 | the loop leaves the environment, or the `KeyError` of a name that vanished, as `Restored` describes |
| ContextManager.WithEnvironment | lib/py_dev_dependencies/devtools/context_manager.py:35-54 | inside a `with` block the environment is the entered one, and afterwards it equals the environment before the block |
| ContextManager.TemporaryWorkingDirectory.constructor | lib/py_dev_dependencies/devtools/context_manager.py:61-65 | only an existing directory is accepted, and nothing is saved yet |
| ContextManager.TemporaryWorkingDirectory.Enter | lib/py_dev_dependencies/devtools/context_manager.py:67-69 | the old working directory is saved and the temporary one becomes current |
| ContextManager.TemporaryWorkingDirectory.Exit | lib/py_dev_dependencies/devtools/context_manager.py:71-72 | the saved working directory becomes current again |
| ContextManager.WithWorkingDirectory | lib/py_dev_dependencies/devtools/context_manager.py:57-72 | inside the block the working directory is the temporary one, and afterwards it is the original again, with the environment untouched |
| Graph.DependenciesFirstPrefix | lib/py_monorepo_manager/monorepo_manager/graph.py:33-36 | a prefix of a list in dependency order is itself in dependency order, so the list stays ordered while it grows |
| Graph.Visit | lib/py_monorepo_manager/monorepo_manager/graph.py:33-36 | the search from one node; `VisitProperties` states that it only appends, lists the node, adds only nodes ranked no higher, and keeps the list duplicate-free and in post-order, and `VisitListed` that it adds nothing from a listed node |
| Graph.VisitAll | lib/py_monorepo_manager/monorepo_manager/graph.py:34-35 | the searches from a node's dependencies in turn; `VisitAllProperties` states that they only append, list every dependency and add only nodes ranked below the node |
| Graph.VisitKeys | lib/py_monorepo_manager/monorepo_manager/graph.py:28-31 | the searches from the keys in turn; `VisitKeysProperties` and `SearchAllProperties` state that every node is listed once, after its dependencies |
| Graph.VisitListed | lib/py_monorepo_manager/monorepo_manager/graph.py:33 | the search from a node already listed returns the list unchanged, whether or not the node is a key |
| Graph.VisitProperties | lib/py_monorepo_manager/monorepo_manager/graph.py:33-38 | the search from a node of an acyclic graph only appends to the shared list, lists the node, adds only nodes reachable no higher than it, and keeps the list duplicate-free and in post-order |
| Graph.VisitAllProperties | lib/py_monorepo_manager/monorepo_manager/graph.py:34-35 | searching from each dependency of a node in turn only appends, lists every dependency, adds only nodes ranked below the node, and keeps the list duplicate-free and in post-order |
| Graph.NoDuplicatesAppend | lib/py_monorepo_manager/monorepo_manager/graph.py:33-36 | appending a node that is not yet visited keeps the list free of duplicates |
| Graph.VisitKeysProperties | lib/py_monorepo_manager/monorepo_manager/graph.py:28-31 | the search over the keys only appends, lists every key, and keeps the list duplicate-free and in post-order |
| Graph.VisitKeysVisited | lib/py_monorepo_manager/monorepo_manager/graph.py:33 | searching from nodes that are all visited already leaves the list unchanged |
| Graph.VisitKeysConcat | lib/py_monorepo_manager/monorepo_manager/graph.py:29-30 | searching from the keys `a` and then the keys `b` with the shared list is the same as searching from `a + b` |
| Graph.VisitKeysIdempotent | lib/py_monorepo_manager/monorepo_manager/graph.py:28-36 | repeating the search over the same keys with the list it produced adds nothing |
| Graph.SearchAllProperties | lib/py_monorepo_manager/monorepo_manager/graph.py:13-31 | with no start node and no given list, the result of an acyclic graph holds every node exactly once, each after all of its dependencies |
| Graph.NodeList.constructor | lib/py_monorepo_manager/monorepo_manager/graph.py:26-27 | a new list holds the given items |
| Graph.NodeList.Append | lib/py_monorepo_manager/monorepo_manager/graph.py:36 | appending puts the node at the end and changes nothing else |
| Graph.VisitNode | lib/py_monorepo_manager/monorepo_manager/graph.py:33-36 | the recursion on the shared list leaves it exactly as the search `Visit` from that node describes |
| Graph.DepthFirstSearch | lib/py_monorepo_manager/monorepo_manager/graph.py:13-38 | the given list is extended in place and returned, or a fresh one is made; its contents are the search from the start node, or from every key in order when there is none |
| Graph.SampleRanked | lib/py_monorepo_manager/monorepo_manager/graph_test.py:10-18 | the graph of the test is acyclic |
| Graph.SampleBranchB | lib/py_monorepo_manager/monorepo_manager/graph_test.py:10-20 | from `b` after `1`, the search lists `e`, `d`, `b` |
| Graph.SampleBranchA | lib/py_monorepo_manager/monorepo_manager/graph_test.py:10-20 | from `a` after `1`, the search lists `e`, `d`, `b`, `c`, `a` |
| Graph.SampleVisitedKeys | lib/py_monorepo_manager/monorepo_manager/graph_test.py:10-20 | after `1` and `a`, the remaining keys add only `f` at the end |
| Graph.SampleDone | lib/py_monorepo_manager/monorepo_manager/graph_test.py:10-20 | after `1` and `a`, the keys `b` to `e` are visited already and leave the list `1, e, d, b, c, a` unchanged |
| Graph.SampleLeafF | lib/py_monorepo_manager/monorepo_manager/graph_test.py:17 | the leaf `f`, when not yet visited, is appended at the end |
| Graph.SampleSearch | lib/py_monorepo_manager/monorepo_manager/graph_test.py:6-29 | on any acyclic graph with the test's keys and edges, the full search gives `1, e, d, b, c, a, f` |
| Graph.SampleGraphSearch | lib/py_monorepo_manager/monorepo_manager/graph_test.py:6-29 | the test graph is acyclic and its full search gives `1, e, d, b, c, a, f` |
| RequestHelper.KeyedBegin | services/frontend/src/api/request-helper.ts:18-27 | a call joins the request in flight for its id if there is one; otherwise it serves a truthy cached value unless forced; otherwise it invokes the callback once and records that request as in flight for the id; only that last case changes the records |
| RequestHelper.KeyedSettle | services/frontend/src/api/request-helper.ts:29-37 | the call returns its own response; success caches the data under the id, failure leaves the cache alone; either way the id is no longer in flight |
| RequestHelper.KeepsValid | services/frontend/src/api/request-helper.ts:18-37 | both halves keep each in-flight request one the store itself issued, and a newly issued request is different from every request already in flight |
| RequestHelper.OnlyTheEntry | services/frontend/src/api/request-helper.ts:27-34 | neither half changes the in-flight entry or the cached value of any other id |
| RequestHelper.JoinsInFlight | services/frontend/src/api/request-helper.ts:18-20 | a second call for an id in flight joins the first request, forced or not, and invokes no callback |
| RequestHelper.CachedAfterFetch | services/frontend/src/api/request-helper.ts:22-37 | after a successful fetch the next unforced call serves the data from the cache if it is truthy and fetches again if it is not |
| RequestHelper.FailureKeepsCache | services/frontend/src/api/request-helper.ts:29-35 | a failed forced fetch propagates its error, keeps the old cache, clears the in-flight entry, and the next unforced call serves the old truthy value or fetches again |
| RequestHelper.ForceRefetches | services/frontend/src/api/request-helper.ts:22-27 | with a truthy cached value and nothing in flight, a forced call fetches while an unforced one serves the cache |
| RequestHelper.KeyedStore.constructor | services/frontend/src/api/request-helper.ts:14-15 | a new store has no request in flight and nothing cached |
| RequestHelper.KeyedStore.Begin | services/frontend/src/api/request-helper.ts:18-27 | the store's records and the outcome up to the `await` are those of `KeyedBegin` |
| RequestHelper.KeyedStore.Settle | services/frontend/src/api/request-helper.ts:29-37 | the store's records and the result after the `await` are those of `KeyedSettle` |
| RequestHelper.ListBegin | services/frontend/src/api/request-helper.ts:55-64 | the list call joins the promise in flight if there is one; otherwise it serves a truthy list unless forced; otherwise it invokes the callback once and sets it as the promise; only that last case changes the state |
| RequestHelper.ListSettle | services/frontend/src/api/request-helper.ts:66-74 | the list call returns its own response, sets the list only on success, and always clears the promise |
| RequestHelper.ListIsKeyed | services/frontend/src/api/request-helper.ts:5-75 | the list variant behaves exactly as the keyed variant does on a store holding only one id, in both halves |
| RequestHelper.ListStore.constructor | services/frontend/src/api/request-helper.ts:51-52 | a new store has no promise and no list |
| RequestHelper.ListStore.Begin | services/frontend/src/api/request-helper.ts:55-64 | the store's state and the outcome up to the `await` are those of `ListBegin` |
| RequestHelper.ListStore.Settle | services/frontend/src/api/request-helper.ts:66-74 | the store's state and the result after the `await` are those of `ListSettle` |
| Gradients.ColorToColorStop | services/frontend/src/components/charts/gradients.ts:32-48 | a single colour becomes two stops of that colour, at positions 0 and 1 |
| Gradients.ConvertDiscreteToColorStops | services/frontend/src/components/charts/gradients.ts:64-72 | one stop per value, in order, with the same colour, at the position that maps back to the value between the axis limits |
| Gradients.ConvertKeepsOrder | services/frontend/src/components/charts/gradients.ts:64-72 | on an increasing axis the positions keep the order of the values, and the lower and upper limits go to 0 and 1 |
| Gradients.ColorToColorStopIsConversion | services/frontend/src/components/charts/gradients.ts:37-72 | a one-colour gradient is the conversion of that colour placed at both axis limits |
| Gradients.ConvertExamples | services/frontend/src/components/charts/gradients.test.ts:65-130 | 0.2 on the axis 0 to 1 stays at 0.2 and moves to 0.4 on the axis 0 to 0.5, and two stops keep their positions and colours |
| Gradients.Clamp | services/frontend/src/components/charts/gradients.ts:101 | the capped position lies in [0, 1], equals the position inside that range, and is 0 below it and 1 above it |
| Gradients.LerpBetween | services/frontend/src/components/charts/gradients.ts:108-112 | between two stops of different positions the interpolated alpha lies between their alphas and starts at the lower stop's alpha |
| Gradients.Lerp | services/frontend/src/components/charts/gradients.ts:108-112 | the straight line through two stops; `LerpBetween` states that it starts at the lower stop's alpha and stays between the two alphas |
| Gradients.Scan | services/frontend/src/components/charts/gradients.ts:107-116 | the walk over the stops; `ScanWithin`, `ScanAtStop` and `ScanPastLast` state what it returns inside, at and past the stops |
| Gradients.Interpolate | services/frontend/src/components/charts/gradients.ts:92-117 | `interpolateAlpha`; `InterpolateWithin`, `InterpolateAtStop` and `InterpolatePastLast` state its results, and an empty list is its one error |
| Gradients.ScanWithin | services/frontend/src/components/charts/gradients.ts:107-116 | the loop's result from any index on lies within the range of the alphas |
| Gradients.InterpolateWithin | services/frontend/src/components/charts/gradients.ts:92-117 | with at least one stop the interpolation succeeds and never leaves the range of the alphas, so alphas in [0, 1] give an alpha in [0, 1] |
| Gradients.ScanPastLast | services/frontend/src/components/charts/gradients.ts:107-116 | on sorted stops a position at or past the last stop falls through the loop to the last alpha |
| Gradients.InterpolatePastLast | services/frontend/src/components/charts/gradients.ts:103-116 | on sorted stops a capped position past the first stop and at or past the last stop gets the last alpha |
| Gradients.ScanAtStop | services/frontend/src/components/charts/gradients.ts:107-116 | on stops of distinct increasing positions the loop gives the alpha of the stop whose position is asked for |
| Gradients.InterpolateAtStop | services/frontend/src/components/charts/gradients.ts:92-117 | on stops of distinct increasing positions within [0, 1], the result at a stop's position is exactly that stop's alpha |
| Gradients.InterpolateExamples | services/frontend/src/components/charts/gradients.test.ts:16-57 | no stop is an error with the source's message; one stop gives its alpha anywhere; stops (0, 0) and (1, 1) give 0.6 at 0.6; the line background fade gives 0.25 at 0.55 |
| Gradients.InsertingStart | services/frontend/src/components/charts/gradients.ts:100 | the sort's insertion of the next stop starts with a sorted prefix |
| Gradients.InsertingSwap | services/frontend/src/components/charts/gradients.ts:100 | swapping the inserted stop down past a larger neighbour keeps the insertion invariant and the stops as a permutation |
| Gradients.InsertingDone | services/frontend/src/components/charts/gradients.ts:100 | once the inserted stop meets a neighbour no larger than itself, the prefix one longer is sorted |
| Gradients.SortByPosition | services/frontend/src/components/charts/gradients.ts:100 | the array is sorted by position in place and holds the same stops as before |
| Gradients.ScanStops | services/frontend/src/components/charts/gradients.ts:107-116 | the loop gives the line between the first stop past the position and the stop before it, or the last alpha when no stop lies past it |
| Gradients.InterpolateAlpha | services/frontend/src/components/charts/gradients.ts:92-117 | with fewer than two stops the caller's array is untouched; otherwise it is sorted in place and is a permutation of what it was; the result is the interpolation over the array as it ends up |
| ChartTimeseries.ToChartJsData | services/frontend/src/components/charts/timeseries.ts:21-40 | one point per timestamp in order, each with the timestamp and the value of the same index, or no value when the values run out first |
| ChartTimeseries.Xs | services/frontend/src/components/charts/timeseries.ts:33-40 | the x coordinates of the points, in order |
| ChartTimeseries.ToChartJsDataRoundTrip | services/frontend/src/components/charts/timeseries.ts:33-40 | when every timestamp has a value, the points give both arrays back exactly |
| ChartTimeseries.YsAll | services/frontend/src/components/charts/timeseries.ts:33-40 | points that all carry the values in order give those values back |
| ChartTimeseries.ShortValuesExample | services/frontend/src/components/charts/timeseries.ts:33-40 | with one value for two timestamps the second point has no value |
| ObjectUtils.DeepUnion | services/frontend/src/utils/object.ts:5-19 | the result holds the keys of both objects; a key only in the first keeps its value; a key of the overwrite wins unless both sides hold an object; two objects are merged recursively over the union of their keys |
| ObjectUtils.ComputeDeepUnion | services/frontend/src/utils/object.ts:5-19 | the loop over the keys of the overwrite, starting from a copy of the first object, computes exactly `DeepUnion` |
| ObjectUtils.DeepUnionSelf | services/frontend/src/utils/object.ts:5-19 | merging an object with itself gives it back |
| ObjectUtils.DeepUnionAbsorbs | services/frontend/src/utils/object.ts:5-19 | laying the same overwrite over the result a second time changes nothing |
| ObjectUtils.DeepUnionExample | services/frontend/src/utils/object.ts:1-19 | nested objects are merged key by key while an array or `null` replaces what was there |
| Window.MediaCategory | services/frontend/src/utils/window.ts:1-19 | the category is Mobile up to 481 pixels, Tablet from 482 to 769, Desktop from 770 to 1248 and DesktopLarge from 1249 on, each exactly on its range |
| Window.MediaCategoryMonotone | services/frontend/src/utils/window.ts:8-19 | a wider window never gets a narrower category |
| Window.MediaCategoryLimits | services/frontend/src/utils/window.ts:1-19 | the Mobile and Tablet values are the widest widths of their own category, the Desktop value already counts as DesktopLarge, and the DesktopLarge value never changes the outcome |
| Window.Value | services/frontend/src/utils/window.ts:1-6 | the breakpoint of a media size; `MediaCategoryLimits` states which widths fall on each side of it |
| ValueRender.Tenths | services/frontend/src/utils/value-render.ts:3 | the count of tenths is the nearest to the non-negative value, the larger on a tie |
| ValueRender.TenthsText | services/frontend/src/utils/value-render.ts:3 | the text has digits, a point and exactly one decimal digit, and no sign |
| ValueRender.FixedOne | services/frontend/src/utils/value-render.ts:3 | the text always ends in a point and one digit, and starts with `-` exactly when the value is negative |
| ValueRender.TenthsTextRoundTrip | services/frontend/src/utils/value-render.ts:3 | the written tenths read back as the same number |
| ValueRender.FixedOneNearest | services/frontend/src/utils/value-render.ts:3 | the text read back differs from the value by at most half a tenth |
| ValueRender.RenderNumber | services/frontend/src/utils/value-render.ts:1-6 | a missing value, `null` or `undefined`, is exactly the case rendered as a dash; any number is rendered with one decimal |
| ValueRender.RenderNumberExamples | services/frontend/src/utils/value-render.ts:1-6 | 21 renders as `21.0`, 21.25 as `21.3` and -0.04 as `-0.0` |
| ValueRender.TemperatureBandOf | services/frontend/src/utils/value-render.ts:8-28 | each temperature falls in exactly one band: at most 0, below 10, below 15, below 21, below 32, below 35, and from 35 on |
| ValueRender.TemperatureMonotone | services/frontend/src/utils/value-render.ts:8-28 | a warmer reading never gets a colder band |
| ValueRender.TemperatureEmojiDistinct | services/frontend/src/utils/value-render.ts:8-28 | different bands show different emojis, so the emoji identifies the band |
| ValueRender.TemperatureEmoji | services/frontend/src/utils/value-render.ts:8-28 | the emoji of a temperature band; `TemperatureEmojiDistinct` states that different bands get different emojis |
| ValueRender.TemperatureLimits | services/frontend/src/utils/value-render.ts:9-27 | zero is still freezing, while 10, 21 and 35 each open the next band |
| ValueRender.HumidityBandOf | services/frontend/src/utils/value-render.ts:30-44 | each humidity falls in exactly one band: below 10, below 30, 30 to 70 inclusive, above 70 to 90, and above 90 |
| ValueRender.HumidityMonotone | services/frontend/src/utils/value-render.ts:30-44 | a damper reading never gets a drier band |
| ValueRender.HumidityEmojiDistinct | services/frontend/src/utils/value-render.ts:30-44 | different humidity bands show different emojis |
| ValueRender.HumidityEmoji | services/frontend/src/utils/value-render.ts:30-44 | the emoji of a humidity band; `HumidityEmojiDistinct` states that different bands get different emojis |
| ValueRender.HumidityLimits | services/frontend/src/utils/value-render.ts:34-43 | 30 and 70 are both pleasant, 10 is dry and 90 is still humid |

## Left out

- Hardware, buses and pins: the I2C bus, the GPIO library and the pin levels are inputs, logs or a mock. The bus lock `i2cLock`, the singleton `__new__` of the I2C helper and the SMBus calls themselves are not modelled.
- Dht.Dhtxx.Read: the start signal on the pin (output, sleeps, switch to input) is not modelled; a read starts from the pulse train that the pin would deliver.
- The database: the SQL queries, commits, `create_partition`, `does_table_exist` and the CRUD functions of `device_management.py` are not modelled. The timeseries store is a map from key to value, and query results and existing ids are parameters.
- Sockets and websockets: a connection is a sequence of receive events and a log of sent messages.
- The Docker client, the container lifecycle and `ContainerManager` with its threads are not modelled; only the validators of the container definition are.
- Concurrency: the async event loop is not modelled. Async code is a sequence of steps. The request helper is split at its one `await`, and several calls may interleave between `Begin` and `Settle`.
- Clocks, sleeps and logging: the current time is a parameter, the retry sleeps are a returned list of delays, and log lines, warnings and the `echo` output of `EnvironmentContext` are left out.
- Floating point: JavaScript numbers and Python floats are reals, so rounding errors, NaN and infinities are not modelled.
- Retry.Execute: `BackOff.execute` loops forever while every call fails with an expected exception. The model takes a finite list of outcomes and reports `StillRetrying` when the list runs out.
- ValueRender.FixedOne: `toFixed` writes a value of magnitude 10^21 or more in exponent form; the model always writes positional digits.
- Gradients.SortByPosition: the sort is stated as sorted and a permutation of the input; stability for equal positions (which `Array.prototype.sort` guarantees) is not stated.
- Gradients.ConvertDiscreteToColorStops: equal axis limits divide by zero in JavaScript and give `NaN` or an infinity. The model requires distinct limits.
- `buildGradient` and colour parsing (colorjs.io, the canvas) are not modelled.
- ObjectUtils.DeepUnion: only object arguments are modelled. Spreading a top-level array or primitive, prototypes, `undefined` and the order of keys are left out.
- DeviceConnection.WebsocketUri: `append_token_query` is not part of this model, because `endpoint.py` does not define it. Attaching the token is the function parameter `appendToken`.
- `validate_timezone` (a `ZoneInfo` lookup) is not modelled. `prevent_real_overflow` is the function parameter `sanitize` of the timeseries module.
- The pydantic JSON encoding of payloads is a pair of functions given as parameters. `BuildRoundTrip` requires that decoding an encoded payload gives it back.
- The `inspect.signature` check of handler registration is a boolean field of each handler.
- The `importlib` check of a driver module is the predicate parameter `importable`.
- Driver.DriverFactory.constructor: `DriverFactory()` is a singleton (`__new__`), so every call after the first returns the first instance with the registry it holds by then. Dafny has no mutable global state, so the model is that one shared instance: its constructor stands for the first call only, and callers must pass the same object around. A second `DriverFactory()` that sees earlier registrations is not represented.
- ApiToken.TokenStore.Write, ApiToken.ReadAfterWrite: the SQLite `DATETIME` column keeps no UTC offset, so an aware expiry written to the table is read back naive. The model stores the token as given, so a read returns the written token with its aware flag.
- Text.ParseHex: `int(s, 16)` also accepts the decimal digits of other scripts (such as Arabic-Indic `٣`) as digit values. The model accepts only ASCII digits and letters, so those inputs are refused.
- Docker.ValidatePortKey, Docker.ValidatePortKeyIff: `str.isdigit` also accepts non-ASCII digits such as `²` or `٣`. The model accepts only `0`-`9`, so such a port is refused while the source lets it through.
- I2c.IsWordChar: `\w` on a text pattern also matches letters and digits outside ASCII. The model matches only ASCII letters, digits and `_`, so a revision ending in such a character is refused.
- I2c.RevisionSuffix: the line is given without its terminator, since `$` also matches before a final newline. `.` does not match a newline, but the model does not tell an interior newline apart. Reading a file line by line never yields one.
- Graph.Visit, Graph.VisitNode, Graph.DepthFirstSearch: the search is modelled only on acyclic graphs, witnessed by a `rank` that decreases along every dependency. On a cycle, `depth_first_search` recurses until Python raises `RecursionError`.
- Graph.Visit, Graph.VisitNode, Graph.DepthFirstSearch: every dependency must itself be a key (`WellFormed`). A dependency that is not a key raises `KeyError` at `graph[start]` (line 34) once it is reached unvisited. The model does not represent that error. A start that is already listed need not be a key, as in the source.
- Partitions.YearlyFromTimestamp, Partitions.QuarterlyFromTimestamp, Partitions.MonthlyFromTimestamp: a timestamp is a UTC instant. `from_timestamp` reads an aware datetime's local fields, so 2021-12-31T23:30Z given at +02:00 falls in 2022-01 in the source and in 2021-12 in the model. The one caller in the core converts to UTC first (`validate_datetime_timezone_utc`, timeseries.py line 203, read back at line 234).
- Crc.Crc8, Crc.Crc8Of: the initial value, final XOR and polynomial are bytes. `crc8` takes them as unbounded `int`s, and an initial value or final XOR above 0xFF would make it return more than a byte. Every caller passes byte constants.
- Protocol.HandledStep, Protocol.ListenLoop: an exception raised inside a handler propagates out of `handle_message` and ends `listen`. The model ends the loop only on a stop request or a lost connection, and a handler is modelled by the messages it sends.

## Findings

| source | as written | input that shows it | evidently intended | confidence | as-written member | corrected member |
|---|---|---|---|---|---|---|
| lib/py_edge_interface/carlos/edge/interface/units.py:48 | the quantity is `PhysicalQuantity(code // 100)`, but the quantity enum's values do not follow the unit's blocks of a hundred | `CELSIUS` (200) gives `HUMIDITY`, and `PERCENTAGE` (100) gives `TEMPERATURE` | the quantity whose block of codes holds the unit, as the enum's comments at lines 29-43 assign them | high, not executed | Units.QuantityAsWrittenDisagreesWithRanges | Units.PhysicalQuantityOfMatchesRanges |
| services/api/carlos/api/utils/data_reduction.py:44 | the last-sample test `idx + 1 == ts_len` never holds, because `idx` stops at `ts_len - 2` | two equal samples a minute apart: the output has only the first one | the last input sample always ends the output (`idx + 2 == ts_len`) | high, not executed | DataReduction.TrailingRunFinding | DataReduction.OptimizeKeepsLastSample |
| services/api/carlos/api/utils/data_reduction.py:89 | the relative change is compared with `threshold * previous_value`, which is negative for a negative previous value | -10.001 after -10.0 with threshold 0.01 counts as changed | the change is compared with the previous value's magnitude, as for positive values | high, not executed | DataReduction.NegativeValueFinding | DataReduction.IsValueChangedSignSymmetric |
| lib/py_dev_dependencies/devtools/docker.py:67 | the accepted protocols are `tcp`, `upd` and `sctp` | `80/udp` is refused and `80/upd` accepted | Docker's port protocols `tcp`, `udp` and `sctp`, as the error message's intent suggests | high, not executed | Docker.PortKeyUdpExample | Docker.PortKeyUdpAccepted |
| lib/py_edge_device/carlos/edge/device/retry.py:72-74 | an absent `max_backoff` is replaced by `timedelta(seconds=float("inf"))`, which raises `OverflowError` | `BackOff(max_backoff=None)` | no cap on the delay, as the comment at line 104 says | high, not executed | Retry.UncappedConstructionRaises | Retry.UncappedDoubling |
