/**
 * The I2C helper of the edge device. The bus itself is represented by the
 * log of the transfers the helper issues and by the replies handed in as
 * arguments (`None` for a transfer that fails with an I/O error). The
 * conversions of raw bus values to signed and big-endian readings, and the
 * Raspberry Pi revision detection that picks the bus number, are modelled in
 * full.
 */
module I2c {
  import opened Wrappers
  import Text

  type Uint8 = x: int | 0 <= x < 0x100
  type Uint16 = x: int | 0 <= x < 0x1_0000

  /** Two's complement of a byte: values above 127 are negative. */
  function SignedByte(u: Uint8): (v: int)
    ensures -128 <= v <= 127
    ensures u <= 127 ==> v == u
    ensures (v + 0x100) % 0x100 == u
  {
    if u > 127 then u - 256 else u
  }

  /** Two's complement of a 16-bit word. */
  function SignedWord(u: Uint16): (v: int)
    ensures -32768 <= v <= 32767
    ensures u <= 32767 ==> v == u
    ensures (v + 0x1_0000) % 0x1_0000 == u
  {
    if u > 32767 then u - 65536 else u
  }

  /** The inverse of `SignedByte`: the byte that encodes `v`. */
  function ByteOfSigned(v: int): Uint8
    requires -128 <= v <= 127
  {
    if v < 0 then v + 256 else v
  }

  lemma SignedByteRoundTrip(u: Uint8, v: int)
    requires -128 <= v <= 127
    ensures ByteOfSigned(SignedByte(u)) == u
    ensures SignedByte(ByteOfSigned(v)) == v
  {
  }

  function LowByte(w: Uint16): Uint8 { w % 0x100 }
  function HighByte(w: Uint16): Uint8 { w / 0x100 }

  /** The swap of a big-endian read: the low byte moves up, the high byte down. */
  function SwapBytes(w: Uint16): (s: Uint16)
    ensures LowByte(s) == HighByte(w) && HighByte(s) == LowByte(w)
  {
    (w % 0x100) * 0x100 + w / 0x100
  }

  /** Swapping twice gives back the word. */
  lemma SwapInvolution(w: Uint16)
    ensures SwapBytes(SwapBytes(w)) == w
  {
    var s := SwapBytes(w);
    assert w == HighByte(w) * 0x100 + LowByte(w);
    assert s == HighByte(s) * 0x100 + LowByte(s);
  }

  /** A word read as the bus returns it, or byte-swapped when not little-endian. */
  function Uint16Of(raw: Uint16, littleEndian: bool): (w: Uint16)
    ensures littleEndian ==> w == raw
    ensures !littleEndian ==> LowByte(w) == HighByte(raw) && HighByte(w) == LowByte(raw)
  {
    if littleEndian then raw else SwapBytes(raw)
  }

  /** A transfer the helper issues on the bus, with the device address it targets. */
  datatype Transfer =
    | WriteByteData(address: int, register: int, value: int)
    | WriteWordData(address: int, register: int, value: int)
    | WriteByte(address: int, value: int)
    | WriteBlockData(address: int, register: int, data: seq<int>)
    | ReadBlockData(address: int, register: int, length: int)
    | ReadByteData(address: int, register: int)
    | ReadWordData(address: int, register: int)

  /** The I/O error raised for a failed transfer; its message names the device address in hex. */
  datatype I2cError = AccessError(address: int)

  class I2cDevice {
    const address: int
    const busNumber: int
    /** Every transfer issued so far, in order. */
    var transfers: seq<Transfer>

    /** `bus` is the bus number given, or the one detected from the board revision. */
    constructor (address: int, bus: Option<int>, cpuInfo: Option<seq<string>>)
      ensures this.address == address
      ensures busNumber == (if bus.Some? then bus.value else BusNumber(cpuInfo))
      ensures transfers == []
    {
      this.address := address;
      busNumber := if bus.Some? then bus.value else BusNumber(cpuInfo);
      transfers := [];
    }

    method Write8(register: int, value: int, delivered: bool) returns (r: Result<(), I2cError>)
      modifies this
      ensures transfers == old(transfers) + [WriteByteData(address, register, value)]
      ensures r == if delivered then Ok(()) else Err(AccessError(address))
    {
      transfers := transfers + [WriteByteData(address, register, value)];
      r := if delivered then Ok(()) else Err(AccessError(address));
    }

    method Write16(register: int, value: int, delivered: bool) returns (r: Result<(), I2cError>)
      modifies this
      ensures transfers == old(transfers) + [WriteWordData(address, register, value)]
      ensures r == if delivered then Ok(()) else Err(AccessError(address))
    {
      transfers := transfers + [WriteWordData(address, register, value)];
      r := if delivered then Ok(()) else Err(AccessError(address));
    }

    method WriteRaw8(value: int, delivered: bool) returns (r: Result<(), I2cError>)
      modifies this
      ensures transfers == old(transfers) + [WriteByte(address, value)]
      ensures r == if delivered then Ok(()) else Err(AccessError(address))
    {
      transfers := transfers + [WriteByte(address, value)];
      r := if delivered then Ok(()) else Err(AccessError(address));
    }

    method WriteList(register: int, data: seq<int>, delivered: bool) returns (r: Result<(), I2cError>)
      modifies this
      ensures transfers == old(transfers) + [WriteBlockData(address, register, data)]
      ensures r == if delivered then Ok(()) else Err(AccessError(address))
    {
      transfers := transfers + [WriteBlockData(address, register, data)];
      r := if delivered then Ok(()) else Err(AccessError(address));
    }

    method ReadList(register: int, length: int, reply: Option<seq<Uint8>>) returns (r: Result<seq<Uint8>, I2cError>)
      modifies this
      ensures transfers == old(transfers) + [ReadBlockData(address, register, length)]
      ensures r == if reply.Some? then Ok(reply.value) else Err(AccessError(address))
    {
      transfers := transfers + [ReadBlockData(address, register, length)];
      r := if reply.Some? then Ok(reply.value) else Err(AccessError(address));
    }

    method ReadUint8(register: int, reply: Option<Uint8>) returns (r: Result<Uint8, I2cError>)
      modifies this
      ensures transfers == old(transfers) + [ReadByteData(address, register)]
      ensures r == if reply.Some? then Ok(reply.value) else Err(AccessError(address))
    {
      transfers := transfers + [ReadByteData(address, register)];
      r := if reply.Some? then Ok(reply.value) else Err(AccessError(address));
    }

    /** A signed byte: the unsigned read, minus 256 above 127. */
    method ReadInt8(register: int, reply: Option<Uint8>) returns (r: Result<int, I2cError>)
      modifies this
      ensures transfers == old(transfers) + [ReadByteData(address, register)]
      ensures r == if reply.Some? then Ok(SignedByte(reply.value)) else Err(AccessError(address))
    {
      var u := ReadUint8(register, reply);
      if u.Err? {
        return Err(u.error);
      }
      var result: int := u.value;
      if result > 127 {
        result := result - 256;
      }
      r := Ok(result);
    }

    /** A word, byte-swapped unless little-endian. */
    method ReadUint16(register: int, littleEndian: bool, reply: Option<Uint16>) returns (r: Result<Uint16, I2cError>)
      modifies this
      ensures transfers == old(transfers) + [ReadWordData(address, register)]
      ensures r == if reply.Some? then Ok(Uint16Of(reply.value, littleEndian)) else Err(AccessError(address))
    {
      transfers := transfers + [ReadWordData(address, register)];
      if reply.None? {
        return Err(AccessError(address));
      }
      var result := reply.value;
      if !littleEndian {
        result := SwapBytes(result);
      }
      r := Ok(result);
    }

    /** A signed word, honouring the byte order through `ReadUint16`. */
    method ReadInt16(register: int, littleEndian: bool, reply: Option<Uint16>) returns (r: Result<int, I2cError>)
      modifies this
      ensures transfers == old(transfers) + [ReadWordData(address, register)]
      ensures r == if reply.Some? then Ok(SignedWord(Uint16Of(reply.value, littleEndian))) else Err(AccessError(address))
    {
      var u := ReadUint16(register, littleEndian, reply);
      if u.Err? {
        return Err(u.error);
      }
      var result: int := u.value;
      if result > 32767 {
        result := result - 65536;
      }
      r := Ok(result);
    }
  }

  /** `\s` of a pattern on text: the characters `str.isspace()` accepts. */
  predicate IsSpace(c: char)
  {
    Text.IsPythonSpace(c)
  }

  /** ASCII `\w` of a regular expression. */
  predicate IsWordChar(c: char)
  {
    ('a' <= c <= 'z') || ('A' <= c <= 'Z') || ('0' <= c <= '9') || c == '_'
  }

  /** The end of the run of whitespace starting at `i`. */
  function SpaceRunEnd(s: string, i: nat): (j: nat)
    requires i <= |s|
    ensures i <= j <= |s|
    ensures forall k :: i <= k < j ==> IsSpace(s[k])
    ensures j == |s| || !IsSpace(s[j])
    decreases |s| - i
  {
    if i < |s| && IsSpace(s[i]) then SpaceRunEnd(s, i + 1) else i
  }

  const RevisionKey := "Revision"

  /**
   * The group of `Revision\s+:\s+.*(\w{4})$` matched at the start of a line
   * (given without its terminator): the line's last four characters, or
   * `None` when the line does not match.
   */
  function RevisionSuffix(line: string): (g: Option<string>)
    ensures g.Some? ==> |line| >= |RevisionKey| + 6 && line[..|RevisionKey|] == RevisionKey
    ensures g.Some? ==> |g.value| == 4 && line == line[..|line| - 4] + g.value
    ensures g.Some? ==> forall k :: 0 <= k < 4 ==> IsWordChar(g.value[k])
  {
    var n := |RevisionKey|;
    if |line| < n || line[..n] != RevisionKey then None
    else
      var c := SpaceRunEnd(line, n);
      if c == n || c == |line| || line[c] != ':' then None
      else if c + 6 > |line| || !IsSpace(line[c + 1]) then None
      else
        var g := line[|line| - 4..];
        if forall k :: 0 <= k < 4 ==> IsWordChar(g[k]) then
          assert line == line[..|line| - 4] + g;
          Some(g)
        else None
  }

  /**
   * What `re.match("Revision\s+:\s+.*(\w{4})$", line)` accepts, the pattern
   * read as a whole: `Revision`, a run of white space, a colon, at least one
   * more white-space character, then anything that ends in four word
   * characters.
   */
  predicate RevisionLine(line: string)
  {
    exists c {:trigger line[c]} :: |RevisionKey| < c && c + 6 <= |line| && line[..|RevisionKey|] == RevisionKey &&
      (forall k :: |RevisionKey| <= k < c ==> IsSpace(line[k])) &&
      line[c] == ':' && IsSpace(line[c + 1]) &&
      (forall k :: |line| - 4 <= k < |line| ==> IsWordChar(line[k]))
  }

  /** The scan matches exactly the lines the pattern accepts, and its group is the line's last four characters. */
  lemma RevisionSuffixMatches(line: string)
    ensures RevisionSuffix(line).Some? <==> RevisionLine(line)
    ensures RevisionSuffix(line).Some? ==> RevisionSuffix(line).value == line[|line| - 4..]
  {
    var n := |RevisionKey|;
    if RevisionLine(line) {
      var c :| n < c && c + 6 <= |line| && line[..n] == RevisionKey &&
        (forall k :: n <= k < c ==> IsSpace(line[k])) &&
        line[c] == ':' && IsSpace(line[c + 1]) &&
        (forall k :: |line| - 4 <= k < |line| ==> IsWordChar(line[k]));
      var j := SpaceRunEnd(line, n);
      assert !IsSpace(':');
      assert j == c;
      var g := line[|line| - 4..];
      assert forall k :: 0 <= k < 4 ==> g[k] == line[|line| - 4 + k];
    }
    if RevisionSuffix(line).Some? {
      var c := SpaceRunEnd(line, n);
      var g := line[|line| - 4..];
      assert forall k :: |line| - 4 <= k < |line| ==> line[k] == g[k - (|line| - 4)];
      assert line[c] == ':';
    }
  }

  /** The revision a matching line stands for: 1 for the first boards, 2 for any other. */
  function RevisionOfSuffix(g: string): int
  {
    if g in ["0000", "0002", "0003"] then 1 else 2
  }

  /** The revision the first matching line gives, 0 when no line matches or the file cannot be read. */
  function PiRevisionOfLines(lines: seq<string>): (rev: int)
    ensures 0 <= rev <= 2
    ensures rev == 0 <==> forall i :: 0 <= i < |lines| ==> RevisionSuffix(lines[i]).None?
  {
    if |lines| == 0 then 0
    else
      var g := RevisionSuffix(lines[0]);
      if g.Some? then RevisionOfSuffix(g.value) else PiRevisionOfLines(lines[1..])
  }

  function PiRevisionOf(cpuInfo: Option<seq<string>>): int
  {
    if cpuInfo.Some? then PiRevisionOfLines(cpuInfo.value) else 0
  }

  /** `get_pi_revision`: scan the lines, returning at the first match; a missing file gives 0. */
  method GetPiRevision(cpuInfo: Option<seq<string>>) returns (rev: int)
    ensures rev == PiRevisionOf(cpuInfo)
  {
    if cpuInfo.None? {
      return 0;
    }
    var lines := cpuInfo.value;
    var i := 0;
    while i < |lines|
      invariant 0 <= i <= |lines|
      invariant PiRevisionOfLines(lines[i..]) == PiRevisionOfLines(lines)
      decreases |lines| - i
    {
      var g := RevisionSuffix(lines[i]);
      assert lines[i..][1..] == lines[i + 1..];
      if g.Some? && g.value in ["0000", "0002", "0003"] {
        return 1;
      } else if g.Some? {
        return 2;
      }
      i := i + 1;
    }
    return 0;
  }

  /** `get_pi_i2v_bus_number`: bus 1 on boards after revision 1, bus 0 otherwise. */
  function BusNumber(cpuInfo: Option<seq<string>>): (bus: int)
    ensures bus == 1 <==> PiRevisionOf(cpuInfo) > 1
    ensures bus == 0 || bus == 1
  {
    if PiRevisionOf(cpuInfo) > 1 then 1 else 0
  }

  /** The first matching line decides, whatever follows it. */
  lemma {:induction false} FirstMatchDecides(lines: seq<string>, i: nat)
    requires i < |lines| && RevisionSuffix(lines[i]).Some?
    requires forall j :: 0 <= j < i ==> RevisionSuffix(lines[j]).None?
    ensures PiRevisionOfLines(lines) == RevisionOfSuffix(RevisionSuffix(lines[i]).value)
  {
    if i > 0 {
      var rest := lines[1..];
      assert RevisionSuffix(lines[0]).None?;
      assert rest[i - 1] == lines[i];
      assert forall j :: 0 <= j < i - 1 ==> rest[j] == lines[j + 1];
      FirstMatchDecides(rest, i - 1);
    }
  }

  /** An original board line gives revision 1 and bus 0; a later board's line gives revision 2 and bus 1. */
  lemma RevisionExamples()
    ensures RevisionSuffix("Revision\t: 0002") == Some("0002")
    ensures PiRevisionOf(Some(["processor\t: 0", "Revision\t: 0002"])) == 1
    ensures BusNumber(Some(["Revision\t: 0002"])) == 0
    ensures RevisionSuffix("Revision\t: a02082") == Some("2082")
    ensures BusNumber(Some(["Revision\t: a02082"])) == 1
    ensures RevisionSuffix("Revision: 0002").None?
    ensures BusNumber(None) == 0
  {
    OriginalBoardLine();
    LaterBoardLine();
    assert SpaceRunEnd("Revision: 0002", 8) == 8;
    assert RevisionSuffix("processor\t: 0").None? by {
      assert "processor\t: 0"[..8][0] != RevisionKey[0];
    }
    assert ["processor\t: 0", "Revision\t: 0002"][1..] == ["Revision\t: 0002"];
  }

  lemma OriginalBoardLine()
    ensures RevisionSuffix("Revision\t: 0002") == Some("0002")
  {
    assert SpaceRunEnd("Revision\t: 0002", 8) == 9;
  }

  lemma LaterBoardLine()
    ensures RevisionSuffix("Revision\t: a02082") == Some("2082")
  {
    assert SpaceRunEnd("Revision\t: a02082", 8) == 9;
  }
}
