/**
 * The ICM-20948 device handle: it owns one sensor interface and remembers
 * which of the four register banks it last selected. A bank is selected by
 * writing its number to the bank-select register, which every bank shares.
 */
module Driver {
  import opened Hal
  import opened Errors
  import opened Spi

  /** The bank-select register, present at the same address in every bank. */
  const REG_BANK_SEL: Byte := 0x7F

  /** The identity register of bank 0. */
  const REG_WHO_AM_I: Byte := 0x00

  datatype Bank = Bank0 | Bank1 | Bank2 | Bank3

  /** The bank a value written to the bank-select register stands for, in the driver's numbering. */
  function BankNumbered(i: Byte): Option<Bank>
  {
    if i == 0 then Some(Bank0)
    else if i == 1 then Some(Bank1)
    else if i == 2 then Some(Bank2)
    else if i == 3 then Some(Bank3)
    else None
  }

  /** The value change_bank writes for bank b: its number, never more than 3. */
  function BankIndex(b: Bank): (i: Byte)
    ensures i <= 3 && BankNumbered(i) == Some(b)
  {
    match b
    case Bank0 => 0
    case Bank1 => 1
    case Bank2 => 2
    case Bank3 => 3
  }

  /** A call that selected a bank: a write to the bank-select register whose frame fully succeeded. */
  ghost predicate SelectsBank<CommE, PinE>(c: Call<CommE, PinE>)
  {
    c.op == RegWrite && c.addr == REG_BANK_SEL && FrameResult(c.attempt).Ok?
  }

  /** The value of the last successful bank-select write among calls, if there is one. */
  ghost function LastSelected<CommE, PinE>(calls: seq<Call<CommE, PinE>>): Option<Byte>
  {
    if calls == [] then None
    else if SelectsBank(calls[|calls| - 1]) then Some(calls[|calls| - 1].val)
    else LastSelected(calls[..|calls| - 1])
  }

  /**
   * Calls that do not select a bank (reads, writes to other registers, and
   * bank-select writes that failed) leave the selected bank as it was.
   */
  lemma {:induction false} LastSelectedSkips<CommE, PinE>(calls: seq<Call<CommE, PinE>>, tail: seq<Call<CommE, PinE>>)
    requires forall i | 0 <= i < |tail| :: !SelectsBank(tail[i])
    ensures LastSelected(calls + tail) == LastSelected(calls)
  {
    if tail != [] {
      var init, last := tail[..|tail| - 1], tail[|tail| - 1];
      assert !SelectsBank(last);
      forall i | 0 <= i < |init| ensures !SelectsBank(init[i]) {
        assert init[i] == tail[i];
      }
      LastSelectedSkips(calls, init);
      var all := calls + tail;
      assert all[..|all| - 1] == calls + init;
      assert all[|all| - 1] == last;
      assert LastSelected(all) == LastSelected(calls + init);
    } else {
      assert calls + tail == calls;
    }
  }

  /**
   * The driver believes a bank only once its select write fully succeeded. A
   * write whose deassert then failed has still put the bank number on the
   * wire, yet leaves the believed bank as it was: nothing reads the register
   * back to find out which of the two the device holds.
   */
  lemma SelectWriteOnWireWithoutSelecting<CommE, PinE>(calls: seq<Call<CommE, PinE>>, b: Bank, e: PinE)
    ensures var c := Call(RegWrite, REG_BANK_SEL, BankIndex(b), Exchanged(Pass, Fail(e)));
      && Event.Write([REG_BANK_SEL, BankIndex(b)]) in Wire(c)
      && FrameResult(c.attempt) == Err(Pin(e))
      && LastSelected(calls + [c]) == LastSelected(calls)
  {
    var c := Call(RegWrite, REG_BANK_SEL, BankIndex(b), Exchanged(Pass, Fail(e)));
    assert (calls + [c])[..|calls|] == calls;
  }

  /** The calls the driver itself makes: bank-select writes of a bank number, and reads of the identity register. */
  ghost predicate Issued<CommE, PinE>(c: Call<CommE, PinE>)
  {
    (c.op == RegWrite && c.addr == REG_BANK_SEL && c.val <= 3) || (c.op == RegRead && c.addr == REG_WHO_AM_I)
  }

  class ICM20948<CommE, PinE> {
    const si: SpiInterface<CommE, PinE>
    var bank: Bank
    ghost const start: nat   // the number of calls the interface had made when the driver took it over

    /** The interface is sound and every call since the driver took it over is one the driver issues. */
    ghost predicate Owned()
      reads this, si, si.bus
    {
      si.Valid() && start <= |si.calls|
      && forall i | start <= i < |si.calls| :: Issued(si.calls[i])
    }

    /** In addition, bank is the bank of the last successful bank-select write. */
    ghost predicate Valid()
      reads this, si, si.bus
    {
      Owned() && LastSelected(si.calls) == Some(BankIndex(bank))
    }

    constructor (si: SpiInterface<CommE, PinE>)
      requires si.Valid()
      ensures this.si == si && bank == Bank0 && start == |si.calls| && Owned()
    {
      this.si := si;
      bank := Bank0;
      start := |si.calls|;
    }

    /** Builds the SPI interface on bus (deasserting chip-select), then the driver on it. */
    static method NewSpi(bus: Bus<CommE, PinE>) returns (r: Result<ICM20948<CommE, PinE>, Error<CommE, PinE>>)
      requires bus.Valid()
      modifies bus
      ensures bus.Valid()
      ensures var k := old(bus.ops); var o := bus.env.pin(k);
        if o.Fail? then
          bus.trace == old(bus.trace) + [CsHigh] && r == Err(Pin(o.error))
        else
          var a := AttemptAt(bus.env, k + 1);
          && bus.trace == old(bus.trace) + [CsHigh] + Frame(a, Event.Write([REG_BANK_SEL, 0]))
          && (FrameResult(a).Err? ==> r == Err(FrameResult(a).error))
          && (FrameResult(a).Ok? ==> r.Ok? && fresh(r.value) && r.value.si.bus == bus
                                     && r.value.bank == Bank0 && r.value.Valid())
    {
      var interface := SpiInterface.New(bus);
      if interface.Err? {
        return Err(interface.error);
      }
      r := NewWithInterface(interface.value);
    }

    /** Takes over the interface and selects bank 0 with one bank-select write; a failure of that write is returned. */
    static method NewWithInterface(si: SpiInterface<CommE, PinE>) returns (r: Result<ICM20948<CommE, PinE>, Error<CommE, PinE>>)
      requires si.Valid()
      modifies si, si.bus
      ensures si.Valid()
      ensures var c := Call(RegWrite, REG_BANK_SEL, 0, AttemptAt(si.bus.env, old(si.bus.ops)));
        && si.calls == old(si.calls) + [c]
        && (FrameResult(c.attempt).Err? ==> r == Err(FrameResult(c.attempt).error))
        && (FrameResult(c.attempt).Ok? ==> r.Ok? && fresh(r.value) && r.value.si == si
                                           && r.value.bank == Bank0 && r.value.Valid())
    {
      var instance := new ICM20948(si);
      var rc := instance.ChangeBank(Bank0);
      if rc.Err? {
        return Err(rc.error);
      }
      return Ok(instance);
    }

    /**
     * Writes the number of bank b to the bank-select register, always, even
     * when b is already selected; bank becomes b only if the write succeeded.
     */
    method ChangeBank(b: Bank) returns (r: Result<(), Error<CommE, PinE>>)
      requires Owned()
      modifies this`bank, si, si.bus
      ensures Owned()
      ensures var c := Call(RegWrite, REG_BANK_SEL, BankIndex(b), AttemptAt(si.bus.env, old(si.bus.ops)));
        && si.calls == old(si.calls) + [c]
        && r == FrameResult(c.attempt)
      ensures bank == if r.Ok? then b else old(bank)
      ensures r.Ok? || old(Valid()) ==> Valid()
    {
      ghost var c := Call(RegWrite, REG_BANK_SEL, BankIndex(b), AttemptAt(si.bus.env, si.bus.ops));
      var rc := si.RegisterWrite(REG_BANK_SEL, BankIndex(b));
      assert Issued(c);
      if rc.Err? {
        LastSelectedSkips(old(si.calls), [c]);
        return Err(rc.error);
      }
      bank := b;
      return Ok(());
    }

    /**
     * Selects bank 0, whatever was selected before, then reads the identity
     * register; when the bank-select write fails no read is made.
     */
    method WhoAmI() returns (r: Result<Byte, Error<CommE, PinE>>)
      requires Valid()
      modifies this`bank, si, si.bus
      ensures Valid()
      ensures var k := old(si.bus.ops);
        var sel := Call(RegWrite, REG_BANK_SEL, 0, AttemptAt(si.bus.env, k));
        if FrameResult(sel.attempt).Err? then
          && si.calls == old(si.calls) + [sel]
          && r == Err(FrameResult(sel.attempt).error)
          && bank == old(bank)
        else
          var rd := ReadCall(si.bus.env, k + |Wire(sel)|, REG_WHO_AM_I);
          && si.calls == old(si.calls) + [sel, rd]
          && r == ReadResult(rd)
          && bank == Bank0
          && LastSelected(si.calls[..|si.calls| - 1]) == Some(BankIndex(Bank0))
    {
      ghost var k := si.bus.ops;
      var rc := ChangeBank(Bank0);
      if rc.Err? {
        return Err(rc.error);
      }
      ghost var sel := si.calls[|si.calls| - 1];
      ghost var selected := si.calls;
      assert |Wire(sel)| == 3 && si.bus.ops == k + 3;
      assert LastSelected(selected) == Some(0);
      r := si.RegisterRead(REG_WHO_AM_I);
      ghost var rd := ReadCall(si.bus.env, k + 3, REG_WHO_AM_I);
      assert si.calls == selected + [rd];
      LastSelectedSkips(selected, [rd]);
      assert Issued(rd);
      assert si.calls[..|si.calls| - 1] == selected;
    }
  }
}
