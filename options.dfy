/** validateOpenOptions: the check open() makes on its options argument before
    any bus activity. JavaScript values are modelled as far as the check can
    tell them apart: a Number is integral (its exact value kept, -0 being 0), NaN,
    or another non-integral value (a fraction or an infinity); Number.isSafeInteger
    rejects the last two kinds. */
module OpenOptions {
  import opened Results

  /** Number.MAX_SAFE_INTEGER, 2^53 - 1. */
  const MAX_SAFE_INTEGER: int := 0x1F_FFFF_FFFF_FFFF

  /** The largest 7-bit I2C address. */
  const MAX_I2C_ADDRESS: int := 0x7f

  datatype Number = Integral(value: int) | NaN | NonIntegral

  /** A JavaScript value; of an object only the two properties the check reads are kept,
      Undefined standing for a property that is absent. */
  datatype JsValue =
    | Undefined
    | Null
    | Boolean(b: bool)
    | Num(n: Number)
    | Str(s: string)
    | Function
    | Object(i2cBusNumber: JsValue, i2cAddress: JsValue)

  datatype OptionsError =
    | NotAnObject(typeName: string)   // "Expected options to be of type object. Got type ..."
    | NullOptions                     // `null` passes typeof; reading a property of it throws a TypeError
    | BadBusNumber(busNumber: JsValue) // "Expected i2cBusNumber to be a non-negative integer. ..."
    | BadAddress(address: JsValue)     // "Expected i2cAddress to be an integer >= 0 and <= 0x7f. ..."

  function TypeOf(v: JsValue): string
  {
    match v
    case Undefined => "undefined"
    case Null => "object"
    case Boolean(_) => "boolean"
    case Num(_) => "number"
    case Str(_) => "string"
    case Function => "function"
    case Object(_, _) => "object"
  }

  /** Number.isSafeInteger: a Number whose value is an integer of magnitude at most 2^53 - 1. */
  predicate IsSafeInteger(v: JsValue)
  {
    v.Num? && v.n.Integral? && -MAX_SAFE_INTEGER <= v.n.value <= MAX_SAFE_INTEGER
  }

  /** `options || {}` in open(): a falsy argument stands for no options, an object
      is passed on as it is. */
  function OrEmpty(v: JsValue): (r: JsValue)
    ensures r.Object? || TypeOf(r) != "object"
    ensures v.Object? ==> r == v
    ensures v.Undefined? || v.Null? ==> r == Object(Undefined, Undefined)
  {
    match v
    case Undefined => Object(Undefined, Undefined)
    case Null => Object(Undefined, Undefined)
    case Boolean(b) => if b then v else Object(Undefined, Undefined)
    case Num(n) => if n == Integral(0) || n == NaN then Object(Undefined, Undefined) else v
    case Str(s) => if s == "" then Object(Undefined, Undefined) else v
    case _ => v
  }

  /** An i2cBusNumber property the check lets through: absent, or a non-negative safe integer. */
  predicate BusNumberAccepted(v: JsValue)
  {
    v == Undefined || (IsSafeInteger(v) && v.n.value >= 0)
  }

  /** An i2cAddress property the check lets through: absent, or a safe integer in [0, 0x7f]. */
  predicate AddressAccepted(v: JsValue)
  {
    v == Undefined || (IsSafeInteger(v) && 0 <= v.n.value <= MAX_I2C_ADDRESS)
  }

  /** The error message validateOpenOptions returns, or None for null (the options pass):
      a non-object first, then the bus number, then the address. */
  function ValidateOpenOptions(options: JsValue): (r: Option<OptionsError>)
    ensures r == None <==>
      options.Object? && BusNumberAccepted(options.i2cBusNumber) && AddressAccepted(options.i2cAddress)
    ensures TypeOf(options) != "object" ==> r == Some(NotAnObject(TypeOf(options)))
    ensures options.Null? ==> r == Some(NullOptions)
    ensures options.Object? && !BusNumberAccepted(options.i2cBusNumber) ==>
      r == Some(BadBusNumber(options.i2cBusNumber))
    ensures options.Object? && BusNumberAccepted(options.i2cBusNumber) && !AddressAccepted(options.i2cAddress)
      ==> r == Some(BadAddress(options.i2cAddress))
  {
    if TypeOf(options) != "object" then
      Some(NotAnObject(TypeOf(options)))
    else if options.Null? then
      Some(NullOptions)
    else if options.i2cBusNumber != Undefined &&
            (!IsSafeInteger(options.i2cBusNumber) || options.i2cBusNumber.n.value < 0) then
      Some(BadBusNumber(options.i2cBusNumber))
    else if options.i2cAddress != Undefined &&
            (!IsSafeInteger(options.i2cAddress) ||
             options.i2cAddress.n.value < 0 ||
             options.i2cAddress.n.value > MAX_I2C_ADDRESS) then
      Some(BadAddress(options.i2cAddress))
    else
      None
  }

  /** The bus number is checked before the address: a bad bus number is the error
      reported whatever the address. */
  lemma BusNumberCheckedFirst(busNumber: JsValue, address: JsValue)
    requires busNumber != Undefined
    requires !IsSafeInteger(busNumber) || busNumber.n.value < 0
    ensures ValidateOpenOptions(Object(busNumber, address)) == Some(BadBusNumber(busNumber))
  {
  }

  /** Through open(), whose `options || {}` replaces null and every other falsy value,
      the check never meets null: it returns None or names a real mistake, and no
      options at all are accepted. */
  lemma OpenNeverValidatesNull(v: JsValue)
    ensures ValidateOpenOptions(OrEmpty(v)) != Some(NullOptions)
    ensures v == Undefined ==> ValidateOpenOptions(OrEmpty(v)) == None
  {
  }

  /** An accepted address is a 7-bit I2C address and an accepted bus number a natural. */
  lemma AcceptedOptionsInRange(options: JsValue)
    requires ValidateOpenOptions(options) == None
    ensures options.i2cAddress != Undefined ==>
      options.i2cAddress.Num? && options.i2cAddress.n.Integral? &&
      0 <= options.i2cAddress.n.value < 0x80
    ensures options.i2cBusNumber != Undefined ==>
      options.i2cBusNumber.Num? && options.i2cBusNumber.n.Integral? &&
      0 <= options.i2cBusNumber.n.value
  {
  }
}
