/**
 * The callback adapters: how each native-callable shim turns the outcome
 * of the user's overriding method (a normal return or an exception) into
 * the value handed back to the native framework, and which out-parameters
 * it writes.
 */
module Adapters {
  import opened Options

  /** Java's `long`. */
  newtype Int64 = x: int | -0x8000_0000_0000_0000 <= x < 0x8000_0000_0000_0000

  /** How the user's method finished: it returned a value or threw an exception. */
  datatype Invocation<+T> = Returned(value: T) | Threw

  /** How a native callback returns to its native caller. */
  datatype NativeReturn = ReturnedNormally | ExceptionEscaped

  /** The flow-return values the adapters pass on. */
  datatype FlowReturn =
    | Ok | NotLinked | WrongState | Unexpected | NotNegotiated | Error | NotSupported

  /** A native buffer, by the address handed to the native side. */
  datatype Buffer = Buffer(address: nat)

  /** A capability set, as its list of structures. */
  datatype Caps = Caps(structures: seq<string>)

  const EmptyCaps: Caps := Caps([])

  /**
   * What a `create` adapter gives back: the flow result, and the buffer
   * written through the `bufRef` out-pointer (None: left untouched).
   */
  datatype CreateResult = CreateResult(flow: FlowReturn, bufRef: Option<Buffer>)

  /**
   * `fillBufferCallback`: the adapter allocates `buffer`, the user fills it.
   * A normal return hands the buffer out and passes the user's flow result
   * on; an exception gives UNEXPECTED and leaves `bufRef` untouched.
   */
  function FillBufferCallback(user: Invocation<FlowReturn>, buffer: Buffer): (r: CreateResult)
    ensures user.Returned? ==> r.flow == user.value
    ensures user.Threw? ==> r.flow == Unexpected
    ensures r.bufRef.Some? <==> user.Returned?
    ensures r.bufRef.Some? ==> r.bufRef.value == buffer
  {
    match user
    case Returned(flow) => CreateResult(flow, Some(buffer))
    case Threw => CreateResult(Unexpected, None)
  }

  /**
   * `createBufferCallback`: the user returns a flow result and may leave a
   * buffer in slot 0 of a one-element array. That buffer is handed out only
   * when it is non-null and the user returned normally.
   */
  function CreateBufferCallback(user: Invocation<(FlowReturn, Option<Buffer>)>): (r: CreateResult)
    ensures user.Returned? ==> r.flow == user.value.0 && r.bufRef == user.value.1
    ensures user.Threw? ==> r.flow == Unexpected && r.bufRef.None?
  {
    match user
    case Returned((flow, slot0)) => CreateResult(flow, slot0)
    case Threw => CreateResult(Unexpected, None)
  }

  /**
   * The boolean adapters (`BooleanFunc1` for is_seekable, start, stop and
   * negotiate; `seekCallback`, `setCapsCallback`, `eventCallback`): the
   * user's answer on a normal return, false on an exception. For
   * `BooleanFunc1`, which calls the user method through `Method.invoke`,
   * `Threw` stands for any throwable, since `invoke` wraps it.
   */
  function BooleanCallback(user: Invocation<bool>): (r: bool)
    ensures r <==> user.Returned? && user.value
    ensures user.Threw? ==> !r
  {
    match user
    case Returned(b) => b
    case Threw => false
  }

  /**
   * `getCapsCallback`: a copy of the user's caps; when the user throws, or
   * returns null so that copying it fails, the empty caps.
   */
  function GetCapsCallback(user: Invocation<Option<Caps>>): (r: Caps)
    ensures user.Returned? && user.value.Some? ==> r == user.value.value
    ensures user.Threw? || user.value.None? ==> r == EmptyCaps
  {
    match user
    case Returned(Some(caps)) => caps
    case Returned(None) => EmptyCaps
    case Threw => EmptyCaps
  }

  /** What `getTimesCallback` writes through its two out-pointers (None: nothing). */
  datatype TimesResult = TimesResult(startRef: Option<Int64>, endRef: Option<Int64>)

  /**
   * `getTimesCallback`: both outputs start at -1 and the user may set
   * either. On a normal return both are written, -1 for one the user left
   * alone; on an exception neither is written.
   */
  function GetTimesCallback(user: Invocation<(Option<Int64>, Option<Int64>)>): (r: TimesResult)
    ensures user.Threw? ==> r.startRef.None? && r.endRef.None?
    ensures user.Returned? ==> r.startRef.Some? && r.endRef.Some?
    ensures user.Returned? && user.value.0.Some? ==> r.startRef.value == user.value.0.value
    ensures user.Returned? && user.value.0.None? ==> r.startRef.value == -1
    ensures user.Returned? && user.value.1.Some? ==> r.endRef.value == user.value.1.value
    ensures user.Returned? && user.value.1.None? ==> r.endRef.value == -1
  {
    match user
    case Returned((start, end)) =>
      TimesResult(Some(if start.Some? then start.value else -1),
                  Some(if end.Some? then end.value else -1))
    case Threw => TimesResult(None, None)
  }

  /** `fixateCallback`: whatever the user method does, the callback returns normally. */
  function FixateCallback(user: Invocation<()>): (r: NativeReturn)
    ensures r == ReturnedNormally
  {
    match user
    case Returned(_) => ReturnedNormally
    case Threw => ReturnedNormally
  }

  /** What `getSizeCallback` gives back: whether the size is known, and the `sizeRef` cell afterwards. */
  datatype SizeResult = SizeResult(known: bool, sizeRef: Int64)

  /**
   * `getSizeCallback`: a size of zero or more is stored in `sizeRef` and
   * reported as known; a negative size (unknown) or an exception reports
   * false and leaves `sizeRef` as it was.
   */
  function GetSizeCallback(user: Invocation<Int64>, sizeRef: Int64): (r: SizeResult)
    ensures r.known <==> user.Returned? && user.value >= 0
    ensures r.known ==> r.sizeRef == user.value
    ensures !r.known ==> r.sizeRef == sizeRef
  {
    match user
    case Returned(size) => if size < 0 then SizeResult(false, sizeRef) else SizeResult(true, size)
    case Threw => SizeResult(false, sizeRef)
  }
}
