/**
 * The stand-in for the Raspberry Pi GPIO library used off the device: it
 * remembers which pins were set up, refuses to drive or read any other pin,
 * and reads every set-up pin as low.
 */
module GpioMock {
  import opened Wrappers
  import opened Uniqueness

  const Low: int := 0
  const High: int := 1
  const In: int := 0
  const Out: int := 1

  /** `setup` takes one pin or a list of pins. */
  datatype PinArg = OnePin(pin: int) | PinList(pins: seq<int>)

  datatype GpioError = PinNotSetUp(pin: int)

  /** The registry after setting up each pin of `ps`, in order. */
  function WithPins(pins: seq<int>, ps: seq<int>): seq<int>
  {
    if |ps| == 0 then pins else AppendIfAbsent(WithPins(pins, ps[..|ps| - 1]), ps[|ps| - 1])
  }

  /** Setting up pins never registers one twice, and earlier pins keep their place. */
  lemma {:induction false} WithPinsProperties(pins: seq<int>, ps: seq<int>)
    requires NoDuplicates(pins)
    ensures NoDuplicates(WithPins(pins, ps))
    ensures pins <= WithPins(pins, ps)
    ensures forall p :: p in WithPins(pins, ps) <==> p in pins || p in ps
  {
    if |ps| > 0 {
      var init := ps[..|ps| - 1];
      WithPinsProperties(pins, init);
      AppendIfAbsentKeepsNoDuplicates(WithPins(pins, init), ps[|ps| - 1]);
      assert ps == init + [ps[|ps| - 1]];
    }
  }

  class Gpio {
    /** The pins set up so far, in the order they were first set up. */
    var pins: seq<int>

    ghost predicate Valid()
      reads this
    {
      NoDuplicates(pins)
    }

    constructor ()
      ensures Valid() && pins == []
    {
      pins := [];
    }

    method SetupPin(pin: int, mode: int)
      requires Valid()
      modifies this
      ensures Valid()
      ensures pins == AppendIfAbsent(old(pins), pin)
    {
      if pin !in pins {
        pins := pins + [pin];
      }
    }

    /** A list is set up pin by pin, in order. */
    method Setup(arg: PinArg, mode: int)
      requires Valid()
      modifies this
      ensures Valid()
      ensures arg.OnePin? ==> pins == AppendIfAbsent(old(pins), arg.pin)
      ensures arg.PinList? ==> pins == WithPins(old(pins), arg.pins)
    {
      if arg.PinList? {
        var ps := arg.pins;
        for i := 0 to |ps|
          invariant Valid()
          invariant pins == WithPins(old(pins), ps[..i])
        {
          assert ps[..i + 1][..i] == ps[..i];
          SetupPin(ps[i], mode);
        }
        assert ps[..|ps|] == ps;
        return;
      }
      SetupPin(arg.pin, mode);
    }

    /** Driving a pin that was not set up raises; nothing changes either way. */
    method Output(pin: int, state: bool) returns (r: Result<(), GpioError>)
      ensures r.Ok? <==> pin in pins
      ensures r.Err? ==> r.error == PinNotSetUp(pin)
    {
      if pin in pins {
        r := Ok(());
      } else {
        r := Err(PinNotSetUp(pin));
      }
    }

    /** Every set-up pin reads low. */
    method Input(pin: int) returns (r: Result<bool, GpioError>)
      ensures r == if pin in pins then Ok(false) else Err(PinNotSetUp(pin))
    {
      if pin in pins {
        r := Ok(false);
      } else {
        r := Err(PinNotSetUp(pin));
      }
    }

    method Cleanup()
      modifies this
      ensures Valid() && pins == []
    {
      pins := [];
    }
  }

  /** Setting up `[4, 17, 4]` registers 4 and 17 once each. */
  lemma SetupListExample()
    ensures WithPins([], [4, 17, 4]) == [4, 17]
  {
    assert [4, 17, 4][..2] == [4, 17];
    assert [4, 17][..1] == [4];
    assert [4][..0] == [];
  }
}
