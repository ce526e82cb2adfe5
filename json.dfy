/**
 * The part of org.json that a session record goes through: a JSON object
 * as a map from key to a scalar value, and the typed getters, which throw
 * on a missing key or a value of the wrong kind.
 */
module Json {
  import opened Wrappers

  /** A scalar JSON value: a number (held as the Java integer that was put) or a string. */
  datatype Value = Number(n: int) | Text(s: string)

  type Object = map<string, Value>

  /** Why a getter threw: the key is absent, or holds a value of the other kind. */
  datatype Error = MissingKey(key: string) | WrongType(key: string)
  {
    function Key(): string {
      match this
      case MissingKey(k) => k
      case WrongType(k) => k
    }
  }

  const INT_MODULUS: int := 0x1_0000_0000
  const LONG_MODULUS: int := 0x1_0000_0000_0000_0000

  /** n fits a Kotlin Int (32-bit two's complement). */
  predicate IsInt(n: int) {
    -0x8000_0000 <= n < 0x8000_0000
  }

  /** n fits a Kotlin Long (64-bit two's complement). */
  predicate IsLong(n: int) {
    -0x8000_0000_0000_0000 <= n < 0x8000_0000_0000_0000
  }

  /** Java's narrowing to int (`Number.intValue()` of a Long): keep the low 32 bits. */
  function ToInt(n: int): (r: int)
    ensures IsInt(r)
    ensures (n - r) % INT_MODULUS == 0
    ensures IsInt(n) ==> r == n
  {
    var m := n % INT_MODULUS;
    if m < 0x8000_0000 then m else m - INT_MODULUS
  }

  /** Java's narrowing to long (`Number.longValue()`): keep the low 64 bits. */
  function ToLong(n: int): (r: int)
    ensures IsLong(r)
    ensures (n - r) % LONG_MODULUS == 0
    ensures IsLong(n) ==> r == n
  {
    var m := n % LONG_MODULUS;
    if m < 0x8000_0000_0000_0000 then m else m - LONG_MODULUS
  }

  /** `JSONObject.getLong(key)`. */
  function GetLong(o: Object, key: string): (r: Result<int, Error>)
    ensures r.Ok? <==> key in o && o[key].Number?
    ensures r.Ok? ==> IsLong(r.value) && r.value == ToLong(o[key].n)
    ensures r.Err? ==> r.error.Key() == key
  {
    if key !in o then Err(MissingKey(key))
    else if !o[key].Number? then Err(WrongType(key))
    else Ok(ToLong(o[key].n))
  }

  /** `JSONObject.getInt(key)`: a stored long is narrowed to 32 bits. */
  function GetInt(o: Object, key: string): (r: Result<int, Error>)
    ensures r.Ok? <==> key in o && o[key].Number?
    ensures r.Ok? ==> IsInt(r.value) && r.value == ToInt(o[key].n)
    ensures r.Err? ==> r.error.Key() == key
  {
    if key !in o then Err(MissingKey(key))
    else if !o[key].Number? then Err(WrongType(key))
    else Ok(ToInt(o[key].n))
  }

  /** `JSONObject.getString(key)`. */
  function GetString(o: Object, key: string): (r: Result<string, Error>)
    ensures r.Ok? <==> key in o && o[key].Text?
    ensures r.Ok? ==> r.value == o[key].s
    ensures r.Err? ==> r.error.Key() == key
  {
    if key !in o then Err(MissingKey(key))
    else if !o[key].Text? then Err(WrongType(key))
    else Ok(o[key].s)
  }
}
