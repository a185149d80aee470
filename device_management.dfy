/**
 * The device records of the database layer: validation of the user-facing
 * fields and the online check. The clock is a parameter (`now`, microseconds
 * since the epoch) and the device id is an opaque string.
 */
module DeviceManagement {
  import opened Wrappers
  import opened Calendar
  import Text

  /** Five minutes. */
  const OnlineThreshold: int := 5 * 60 * MicrosPerSecond
  const MaxDisplayNameLength: int := 255
  const MaxDescriptionLength: int := 5000

  /**
   * pydantic's `str_strip_whitespace`, which every string field of the
   * schemas goes through before its length is checked: Unicode white space
   * removed at both ends.
   */
  function Strip(s: string): string
  {
    Text.Strip(s, Text.IsUnicodeWhiteSpace)
  }

  datatype DeviceError =
    | DisplayNameTooLong(length: nat)
    | DescriptionTooLong(length: nat)
    | TimezoneMustBeSet

  /** `CarlosDeviceCreate` (and `CarlosDeviceUpdate`, which adds nothing). */
  datatype DeviceCreate = DeviceCreate(displayName: string, description: Option<string>)

  /** `CarlosDevice`. */
  datatype Device = Device(deviceId: string, displayName: string, description: Option<string>, registeredAt: DateTime, lastSeenAt: Option<DateTime>)

  /** The field validation of `CarlosDeviceCreate`: strip, then check the length. */
  function NewDeviceCreate(displayName: string, description: Option<string>): (r: Result<DeviceCreate, DeviceError>)
    ensures r.Ok? <==> (|Strip(displayName)| <= MaxDisplayNameLength &&
      (description.None? || |Strip(description.value)| <= MaxDescriptionLength))
    ensures r.Ok? ==> (r.value.displayName == Strip(displayName) &&
      r.value.description == (if description.None? then None else Some(Strip(description.value))))
    ensures r.Err? && |Strip(displayName)| > MaxDisplayNameLength ==> r.error == DisplayNameTooLong(|Strip(displayName)|)
  {
    var name := Strip(displayName);
    if |name| > MaxDisplayNameLength then Err(DisplayNameTooLong(|name|))
    else if description.Some? && |Strip(description.value)| > MaxDescriptionLength then Err(DescriptionTooLong(|Strip(description.value)|))
    else Ok(DeviceCreate(name, if description.None? then None else Some(Strip(description.value))))
  }

  /** The validation of `CarlosDevice`: the create fields, then both timestamps must be timezone aware. */
  function NewDevice(deviceId: string, displayName: string, description: Option<string>, registeredAt: DateTime, lastSeenAt: Option<DateTime>): (r: Result<Device, DeviceError>)
    ensures r.Ok? <==> NewDeviceCreate(displayName, description).Ok? && registeredAt.aware && (lastSeenAt.None? || lastSeenAt.value.aware)
    ensures r.Ok? ==> |r.value.displayName| <= MaxDisplayNameLength && r.value.lastSeenAt == lastSeenAt && r.value.deviceId == deviceId
    ensures r.Ok? && r.value.description.Some? ==> |r.value.description.value| <= MaxDescriptionLength
  {
    match NewDeviceCreate(displayName, description)
    case Err(e) => Err(e)
    case Ok(c) =>
      if !registeredAt.aware || (lastSeenAt.Some? && !lastSeenAt.value.aware) then Err(TimezoneMustBeSet)
      else Ok(Device(deviceId, c.displayName, c.description, registeredAt, lastSeenAt))
  }

  /** `is_online`: seen, and less than five minutes ago by the clock `now`. */
  function IsOnline(d: Device, now: int): (online: bool)
    ensures online ==> d.lastSeenAt.Some?
  {
    d.lastSeenAt.Some? && now - d.lastSeenAt.value.micros < OnlineThreshold
  }

  /** Never seen is offline; seen now is online; seen a day ago is offline. */
  lemma IsOnlineExamples(d: Device, now: int)
    ensures d.lastSeenAt.None? ==> !IsOnline(d, now)
    ensures d.lastSeenAt == Some(DateTime(now, true)) ==> IsOnline(d, now)
    ensures d.lastSeenAt == Some(DateTime(now - MicrosPerDay, true)) ==> !IsOnline(d, now)
  {
  }

  /**
   * The boundary: exactly five minutes ago is already offline; a timestamp in
   * the future counts as online; and online is exactly "seen within the
   * threshold".
   */
  lemma IsOnlineBoundary(d: Device, now: int)
    ensures d.lastSeenAt.Some? && d.lastSeenAt.value.micros == now - OnlineThreshold ==> !IsOnline(d, now)
    ensures d.lastSeenAt.Some? && d.lastSeenAt.value.micros > now ==> IsOnline(d, now)
    ensures IsOnline(d, now) <==> d.lastSeenAt.Some? && d.lastSeenAt.value.micros > now - OnlineThreshold
  {
  }

  /** A device that is offline stays offline as the clock moves on. */
  lemma IsOnlineMonotone(d: Device, now: int, later: int)
    requires now <= later && !IsOnline(d, now)
    ensures !IsOnline(d, later)
  {
  }

  /** A 300-character name is refused, a padded 255-character one is accepted. */
  lemma DisplayNameLimitExample()
    ensures NewDeviceCreate(seq(300, i => 'a'), None) == Err(DisplayNameTooLong(300))
    ensures NewDeviceCreate([' '] + seq(255, i => 'a') + [' '], None).Ok?
  {
    var a := seq(300, i => 'a');
    Text.StripUnpadded(a, Text.IsUnicodeWhiteSpace);
    PaddedNameStrips(' ', ' ');
  }

  /** A 255-character name padded with any Unicode white space, a no-break space or an ideographic space say, strips to the bare name. */
  lemma PaddedNameStrips(before: char, after: char)
    requires Text.IsUnicodeWhiteSpace(before) && Text.IsUnicodeWhiteSpace(after)
    ensures NewDeviceCreate([before] + seq(255, i => 'a') + [after], None) == Ok(DeviceCreate(seq(255, i => 'a'), None))
  {
    var b := seq(255, i => 'a');
    PaddingStrips(before, b, after);
  }

  /** One white-space character on each side of a name that neither starts nor ends with one is stripped, and nothing else. */
  lemma PaddingStrips(before: char, b: string, after: char)
    requires Text.IsUnicodeWhiteSpace(before) && Text.IsUnicodeWhiteSpace(after)
    requires b == [] || (!Text.IsUnicodeWhiteSpace(b[0]) && !Text.IsUnicodeWhiteSpace(b[|b| - 1]))
    ensures Strip([before] + b + [after]) == b
  {
    Text.StripIgnoresPadding([before], b, [after], Text.IsUnicodeWhiteSpace);
    Text.StripUnpadded(b, Text.IsUnicodeWhiteSpace);
  }

  /** The no-break space U+00A0 and the ideographic space U+3000 are stripped like a blank. */
  lemma NonAsciiPaddingExample()
    ensures NewDeviceCreate(['\U{A0}'] + seq(255, i => 'a') + ['\U{3000}'], None).Ok?
  {
    PaddedNameStrips('\U{A0}', '\U{3000}');
  }
}
