/** The LED/button GATT service (src/my_lbs.c): a write handler that
    validates a one-byte LED command before handing it to the application,
    a read handler that refreshes the button state from the application,
    and callback registration. Callbacks are modelled by presence; a call
    to the LED callback is recorded in the result, and the button callback's
    answer is an input. */
module Lbs {
  import Common

  type uint8 = x: int | 0 <= x < 0x100
  type uint16 = x: int | 0 <= x < 0x1_0000

  /** Attribute protocol error codes, section 3.4.1.1 of the Bluetooth Core
      Specification, Volume 3, Part F. */
  const AttErrInvalidOffset: int := 0x07
  const AttErrInvalidAttributeLen: int := 0x0D
  const AttErrValueNotAllowed: int := 0x13

  /** `BT_GATT_ERR`: a handler reports an ATT error as its negation. */
  function GattErr(att: int): (r: int)
    requires att > 0
    ensures r < 0 && -r == att
  {
    -att
  }

  /** Which application callbacks are registered. */
  datatype Callbacks = Callbacks(hasLedCb: bool, hasButtonCb: bool)

  /** The service's static state: the registered callbacks and the stored
      button value exposed by the button characteristic. */
  datatype Service = Service(cb: Callbacks, buttonState: bool)

  /** Static storage starts zeroed: nothing registered, button released. */
  const Initial: Service := Service(Callbacks(false, false), false)

  /** The value of a write (and the ATT layer's `len`), and each LED
      callback invocation it caused, in order, with its argument. */
  datatype WriteResult = WriteResult(ret: int, ledCalls: seq<bool>)

  /** `write_led`. The checks run in a fixed order: length, then offset,
      then (only when a callback is registered) the value. */
  function WriteLed(svc: Service, buf: seq<uint8>, offset: uint16): (r: WriteResult)
    requires |buf| < 0x1_0000
    // Any length other than one byte is refused first, without a call.
    ensures |buf| != 1 ==> r == WriteResult(GattErr(AttErrInvalidAttributeLen), [])
    // A one-byte write at a non-zero offset is refused next.
    ensures |buf| == 1 && offset != 0 ==> r == WriteResult(GattErr(AttErrInvalidOffset), [])
    // A registered callback is called once with "value is non-zero" for 0 and 1 ...
    ensures |buf| == 1 && offset == 0 && svc.cb.hasLedCb && buf[0] in {0, 1} ==>
      r == WriteResult(1, [buf[0] != 0])
    // ... and any other value is refused without a call.
    ensures |buf| == 1 && offset == 0 && svc.cb.hasLedCb && buf[0] !in {0, 1} ==>
      r == WriteResult(GattErr(AttErrValueNotAllowed), [])
    // Without a callback a well-formed write is accepted unvalidated.
    ensures |buf| == 1 && offset == 0 && !svc.cb.hasLedCb ==> r == WriteResult(1, [])
  {
    if |buf| != 1 then WriteResult(GattErr(AttErrInvalidAttributeLen), [])
    else if offset != 0 then WriteResult(GattErr(AttErrInvalidOffset), [])
    else if svc.cb.hasLedCb then
      var val := buf[0];
      if val == 0x00 || val == 0x01 then WriteResult(|buf|, [val != 0])
      else WriteResult(GattErr(AttErrValueNotAllowed), [])
    else WriteResult(|buf|, [])
  }

  /** The write the service accepts, as a reference independent of the
      handler: exactly one byte at offset zero, holding 0 or 1 unless no one
      is listening. */
  predicate Acceptable(svc: Service, buf: seq<uint8>, offset: uint16)
  {
    |buf| == 1 && offset == 0 && (svc.cb.hasLedCb ==> buf[0] <= 1)
  }

  /** The handler accepts exactly the acceptable writes, echoing their
      length; it refuses all others with a negative code, and the callback
      runs at most once and only for an accepted write with a listener. */
  lemma WriteAcceptsExactly(svc: Service, buf: seq<uint8>, offset: uint16)
    requires |buf| < 0x1_0000
    ensures WriteLed(svc, buf, offset).ret >= 0 <==> Acceptable(svc, buf, offset)
    ensures WriteLed(svc, buf, offset).ret >= 0 ==> WriteLed(svc, buf, offset).ret == |buf|
    ensures |WriteLed(svc, buf, offset).ledCalls| <= 1
    ensures |WriteLed(svc, buf, offset).ledCalls| == 1 <==> Acceptable(svc, buf, offset) && svc.cb.hasLedCb
  {
  }

  /** The code of a refused write names the first check it failed: a
      client can tell from the code alone whether the length, the offset or
      the value was wrong. */
  lemma RefusalCodeNamesCheck(svc: Service, buf: seq<uint8>, offset: uint16)
    requires |buf| < 0x1_0000
    ensures WriteLed(svc, buf, offset).ret == GattErr(AttErrInvalidAttributeLen) <==> |buf| != 1
    ensures WriteLed(svc, buf, offset).ret == GattErr(AttErrInvalidOffset) <==> |buf| == 1 && offset != 0
    ensures WriteLed(svc, buf, offset).ret == GattErr(AttErrValueNotAllowed) <==>
      |buf| == 1 && offset == 0 && svc.cb.hasLedCb && buf[0] > 1
  {
  }

  /** A boolean as one byte: 1 for true, 0 for false. It is the byte a
      client writes to switch the LED on or off, and the C `bool` stored
      behind the button characteristic. */
  function BoolByte(b: bool): (v: uint8)
    ensures v <= 1 && (v == 1 <==> b)
  {
    if b then 1 else 0
  }

  /** Round trip: writing the encoding of a state delivers exactly that
      state to a registered callback, once. */
  lemma EncodeWriteRoundTrip(svc: Service, on: bool)
    requires svc.cb.hasLedCb
    ensures WriteLed(svc, [BoolByte(on)], 0) == WriteResult(1, [on])
  {
  }

  /** `bt_gatt_attr_read` of the host stack: an offset past the value is an
      error; otherwise up to `bufLen` bytes from `offset` are copied and
      their count returned. (Host-stack behaviour, not part of this
      repository, assumed as documented by the stack.) */
  function AttrRead(value: seq<uint8>, bufLen: uint16, offset: uint16): (r: (int, seq<uint8>))
    requires |value| < 0x1_0000
    ensures offset > |value| ==> r == (GattErr(AttErrInvalidOffset), [])
    ensures offset <= |value| ==>
      && r.0 == |r.1|
      && |r.1| <= bufLen
      && offset + |r.1| <= |value|
      && r.1 == value[offset..offset + |r.1|]
      && (|r.1| < bufLen ==> offset + |r.1| == |value|)
  {
    if offset > |value| then (GattErr(AttErrInvalidOffset), [])
    else
      var n := if bufLen < |value| - offset then bufLen else |value| - offset;
      (n, value[offset..offset + n])
  }

  /** The outcome of a read: the service afterwards, the handler's return
      value and the bytes copied to the client. */
  datatype ReadResult = ReadResult(svc: Service, ret: int, data: seq<uint8>)

  /** `read_button`: with a button callback, refresh the stored state from
      it (`answer` is what the callback returns) and read the one-byte
      value; without one, return 0 and leave everything alone. */
  function ReadButton(svc: Service, answer: bool, bufLen: uint16, offset: uint16): (r: ReadResult)
    ensures !svc.cb.hasButtonCb ==> r == ReadResult(svc, 0, [])
    ensures svc.cb.hasButtonCb ==> r.svc == svc.(buttonState := answer)
    // A whole read at offset 0 reports the refreshed state, not the stale one.
    ensures svc.cb.hasButtonCb && offset == 0 && bufLen >= 1 ==>
      r.ret == 1 && r.data == [BoolByte(answer)]
    ensures svc.cb.hasButtonCb && offset > 1 ==> r.ret == GattErr(AttErrInvalidOffset) && r.data == []
    // Reading at the end of the value, or into an empty buffer, copies
    // nothing and reports zero bytes.
    ensures svc.cb.hasButtonCb && offset <= 1 && (offset == 1 || bufLen == 0) ==> r.ret == 0 && r.data == []
    // In every case the read is the host stack's read of the refreshed byte.
    ensures svc.cb.hasButtonCb ==> (r.ret, r.data) == AttrRead([BoolByte(answer)], bufLen, offset)
  {
    if svc.cb.hasButtonCb then
      var svc' := svc.(buttonState := answer);
      var read := AttrRead([BoolByte(svc'.buttonState)], bufLen, offset);
      ReadResult(svc', read.0, read.1)
    else
      ReadResult(svc, 0, [])
  }

  /** `my_lbs_init`: copies both callbacks from a non-null argument and
      keeps the previous ones otherwise; it always reports success. */
  function Init(svc: Service, callbacks: Common.Option<Callbacks>): (r: (Service, int))
    ensures r.1 == 0
    ensures r.0.buttonState == svc.buttonState
    ensures callbacks.Some? ==> r.0.cb == callbacks.value
    ensures callbacks.None? ==> r.0 == svc
  {
    match callbacks
    case Some(c) => (svc.(cb := c), 0)
    case None => (svc, 0)
  }

  /** Registration decides everything the handlers do: after registering
      callbacks, the write handler's outcome no longer depends on what was
      registered before. */
  lemma InitDeterminesHandlers(a: Service, b: Service, c: Callbacks, buf: seq<uint8>, offset: uint16)
    requires |buf| < 0x1_0000
    ensures WriteLed(Init(a, Common.Some(c)).0, buf, offset) == WriteLed(Init(b, Common.Some(c)).0, buf, offset)
  {
  }
}
