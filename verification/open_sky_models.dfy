/** The flight-state record and its positional decoder: one row of the
    `states` array (an array of loosely typed values) becomes an `OpenSkyState`,
    or nothing when the row is too short or reading it throws. */
module OpenSkyModels {
  import opened Wrappers
  import opened DotNet
  import opened Exceptions

  /** What `ToString()` does on one non-null element: return a string, return
      `null`, or throw. */
  datatype Shown = Returned(text: Option<string>) | Threw(error: Exception)

  /** The runtime calls the decoder makes but whose code is outside this model:
      `ToString()` on a deserialised element of type `W`, and `long.TryParse`,
      `int.TryParse` and `double.TryParse` on a non-null string (they run with
      the current culture, so they stay uninterpreted). */
  datatype Runtime<!W> = Runtime(
    toString: W -> Shown,
    parseLong: string -> Option<Int64>,
    parseInt: string -> Option<Int32>,
    parseDouble: string -> Option<Double>)

  /** One state vector as deserialised: a JSON `null` element is `None`. */
  type Row<W> = seq<Option<W>>

  datatype OpenSkyState = OpenSkyState(
    icao24: string,
    callsign: Option<string>,
    originCountry: Option<string>,
    timePosition: Option<Int64>,
    lastContact: Int64,
    longitude: Option<Double>,
    latitude: Option<Double>,
    baroAltitude: Option<Double>,
    onGround: bool,
    velocity: Option<Double>,
    trueTrack: Option<Double>,
    verticalRate: Option<Double>,
    geoAltitude: Option<Double>,
    squawk: Option<string>,
    spi: bool,
    positionSource: Int32,
    category: Option<Int32>)

  /** The body of the states endpoint; a missing or `null` `states` is `None`,
      and so is a `null` row inside it. */
  datatype OpenSkyStatesResponse<W> = OpenSkyStatesResponse(
    time: Int64,
    states: Option<seq<Option<Row<W>>>>)

  /** Rows shorter than this are refused before any element is read. */
  const MinRowLength: nat := 17

  /** `value?.ToString()`: `null` for a `null` element. */
  function Stringify<W>(rt: Runtime<W>, value: Option<W>): Result<Option<string>, Exception> {
    match value
    case None => Success(None)
    case Some(w) =>
      match rt.toString(w)
      case Returned(text) => Success(text)
      case Threw(e) => Failure(e)
  }

  /** Reading the element throws. */
  predicate Throws<W>(rt: Runtime<W>, value: Option<W>) {
    Stringify(rt, value).Failure?
  }

  /** The element's string form when reading it does not throw; `None` for a
      `null` element or a `null` from `ToString()`. */
  function Text<W>(rt: Runtime<W>, value: Option<W>): Option<string> {
    match Stringify(rt, value)
    case Success(text) => text
    case Failure(_) => None
  }

  /** A `TryParse` call: it fails on a `null` string. */
  function TryParse<T>(parse: string -> Option<T>, text: Option<string>): Option<T> {
    match text
    case None => None
    case Some(s) => parse(s)
  }

  /** `ConvertToLong`: `null` when the element is `null` or does not parse. */
  function ConvertToLong<W>(rt: Runtime<W>, value: Option<W>): (r: Result<Option<Int64>, Exception>)
    ensures r.Failure? <==> Throws(rt, value)
    ensures r.Success? ==> r.value == TryParse(rt.parseLong, Text(rt, value))
  {
    if value.None? then Success(None)
    else
      var text :- Stringify(rt, value);
      Success(TryParse(rt.parseLong, text))
  }

  /** `ConvertToDouble`: `null` when the element is `null` or does not parse. */
  function ConvertToDouble<W>(rt: Runtime<W>, value: Option<W>): (r: Result<Option<Double>, Exception>)
    ensures r.Failure? <==> Throws(rt, value)
    ensures r.Success? ==> r.value == TryParse(rt.parseDouble, Text(rt, value))
  {
    if value.None? then Success(None)
    else
      var text :- Stringify(rt, value);
      Success(TryParse(rt.parseDouble, text))
  }

  /** `ConvertToBool`: true only for the exact, case-sensitive string "true". */
  function ConvertToBool<W>(rt: Runtime<W>, value: Option<W>): (r: Result<bool, Exception>)
    ensures r.Failure? <==> Throws(rt, value)
    ensures r.Success? ==> (r.value <==> Text(rt, value) == Some("true"))
  {
    if value.None? then Success(false)
    else
      var text :- Stringify(rt, value);
      Success(text == Some("true"))
  }

  /** `ConvertToInt`: 0 when the element is `null` or does not parse. */
  function ConvertToInt<W>(rt: Runtime<W>, value: Option<W>): (r: Result<Int32, Exception>)
    ensures r.Failure? <==> Throws(rt, value)
    ensures r.Success? ==> r.value == TryParse(rt.parseInt, Text(rt, value)).GetOr(0)
  {
    if value.None? then Success(0)
    else
      var text :- Stringify(rt, value);
      Success(TryParse(rt.parseInt, text).GetOr(0))
  }

  /** The object initializer inside `FromArray`'s `try`: every field in turn,
      the first exception aborting the whole record. It indexes positions 0 to 11
      unguarded and guards each later position by the row's length. */
  function Build<W>(rt: Runtime<W>, state: Row<W>): Result<OpenSkyState, Exception>
    requires |state| > 11
  {
    var icao24 :- Stringify(rt, state[0]);
    var callsign :- Stringify(rt, state[1]);
    var originCountry :- Stringify(rt, state[2]);
    var timePosition :- ConvertToLong(rt, state[3]);
    var lastContact :- ConvertToLong(rt, state[4]);
    var longitude :- ConvertToDouble(rt, state[5]);
    var latitude :- ConvertToDouble(rt, state[6]);
    var baroAltitude :- ConvertToDouble(rt, state[7]);
    var onGround :- ConvertToBool(rt, state[8]);
    var velocity :- ConvertToDouble(rt, state[9]);
    var trueTrack :- ConvertToDouble(rt, state[10]);
    var verticalRate :- ConvertToDouble(rt, state[11]);
    var geoAltitude :- if |state| > 13 then ConvertToDouble(rt, state[13]) else Success(None);
    var squawk :- if |state| > 14 then Stringify(rt, state[14]) else Success(None);
    var spi :- if |state| > 15 then ConvertToBool(rt, state[15]) else Success(false);
    var positionSource :- if |state| > 16 then ConvertToInt(rt, state[16]) else Success(0);
    var category :- ConvertCategory(rt, state);
    Success(OpenSkyState(
      icao24 := icao24.GetOr(""),
      callsign := if callsign.Some? then Some(Trim(callsign.value)) else None,
      originCountry := originCountry,
      timePosition := timePosition,
      lastContact := lastContact.GetOr(0),
      longitude := longitude,
      latitude := latitude,
      baroAltitude := baroAltitude,
      onGround := onGround,
      velocity := velocity,
      trueTrack := trueTrack,
      verticalRate := verticalRate,
      geoAltitude := geoAltitude,
      squawk := squawk,
      spi := spi,
      positionSource := positionSource,
      category := category))
  }

  /** `state.Length > 17 ? ConvertToInt(state[17]) : null`. */
  function ConvertCategory<W>(rt: Runtime<W>, state: Row<W>): (r: Result<Option<Int32>, Exception>)
    ensures |state| <= 17 ==> r == Success(None)
    ensures |state| > 17 ==> (r.Failure? <==> Throws(rt, state[17]))
    ensures |state| > 17 && r.Success? ==> r.value.Some?
  {
    if |state| > 17 then
      var c :- ConvertToInt(rt, state[17]);
      Success(Some(c))
    else Success(None)
  }

  /** `OpenSkyState.FromArray`: a short row is refused, and so is a row on which
      any element's `ToString()` throws (the catch-all handler). */
  function FromArray<W>(rt: Runtime<W>, state: Row<W>): (r: Option<OpenSkyState>)
    ensures |state| < MinRowLength ==> r.None?
  {
    if |state| < MinRowLength then None
    else
      match Build(rt, state)
      case Success(s) => Some(s)
      case Failure(_) => None
  }

  /** The positions `FromArray` reads once a row passes the length guard:
      0 to 17, except 12. */
  predicate IsReadIndex(i: int) {
    0 <= i <= 17 && i != 12
  }

  /** A row decodes exactly when it is long enough and no element that is read throws. */
  lemma DecodeSucceedsIff<W>(rt: Runtime<W>, state: Row<W>)
    ensures FromArray(rt, state).Some? <==>
      |state| >= MinRowLength && forall i | 0 <= i < |state| && IsReadIndex(i) :: !Throws(rt, state[i])
  {
    if |state| >= MinRowLength && forall i | 0 <= i < |state| && IsReadIndex(i) :: !Throws(rt, state[i]) {
      assert !Throws(rt, state[0]) && !Throws(rt, state[1]) && !Throws(rt, state[2]);
      assert !Throws(rt, state[3]) && !Throws(rt, state[4]) && !Throws(rt, state[5]);
      assert !Throws(rt, state[6]) && !Throws(rt, state[7]) && !Throws(rt, state[8]);
      assert !Throws(rt, state[9]) && !Throws(rt, state[10]) && !Throws(rt, state[11]);
      assert !Throws(rt, state[13]) && !Throws(rt, state[14]) && !Throws(rt, state[15]);
      assert !Throws(rt, state[16]);
      assert |state| > 17 ==> !Throws(rt, state[17]);
    }
  }

  /** The decoded record, field by field, in terms of the row's string forms. */
  lemma DecodedFields<W>(rt: Runtime<W>, state: Row<W>)
    requires FromArray(rt, state).Some?
    ensures var s := FromArray(rt, state).value;
      && s.icao24 == Text(rt, state[0]).GetOr("")
      && (Text(rt, state[1]).None? ==> s.callsign.None?)
      && (Text(rt, state[1]).Some? ==> s.callsign == Some(Trim(Text(rt, state[1]).value)))
      && s.originCountry == Text(rt, state[2])
      && s.onGround == (Text(rt, state[8]) == Some("true"))
      && s.squawk == Text(rt, state[14])
      && s.spi == (Text(rt, state[15]) == Some("true"))
  {
  }

  /** The two timestamps: `timePosition` is absent when element 3 is `null` or
      unparsable, while `lastContact` falls back to 0 on the same condition. */
  lemma TimestampFallbacks<W>(rt: Runtime<W>, state: Row<W>)
    requires FromArray(rt, state).Some?
    ensures var s := FromArray(rt, state).value;
      && (s.timePosition.None? <==> TryParse(rt.parseLong, Text(rt, state[3])).None?)
      && (s.timePosition.Some? ==> rt.parseLong(Text(rt, state[3]).value) == s.timePosition)
      && (TryParse(rt.parseLong, Text(rt, state[4])).None? ==> s.lastContact == 0)
      && (TryParse(rt.parseLong, Text(rt, state[4])).Some? ==>
            s.lastContact == TryParse(rt.parseLong, Text(rt, state[4])).value)
  {
  }

  /** `positionSource` comes from element 16 and is 0 when it is `null` or
      unparsable; `category` is absent for a 17-element row and, when an
      18th element exists, present even when it does not parse (as 0). */
  lemma IntegerFieldFallbacks<W>(rt: Runtime<W>, state: Row<W>)
    requires FromArray(rt, state).Some?
    ensures var s := FromArray(rt, state).value;
      && (TryParse(rt.parseInt, Text(rt, state[16])).None? ==> s.positionSource == 0)
      && (TryParse(rt.parseInt, Text(rt, state[16])).Some? ==>
            s.positionSource == TryParse(rt.parseInt, Text(rt, state[16])).value)
      && (|state| == MinRowLength ==> s.category.None?)
      && (|state| > MinRowLength ==> s.category == Some(TryParse(rt.parseInt, Text(rt, state[17])).GetOr(0)))
  {
  }

  /** The decoded doubles are the parses of elements 5 to 11 and 13. */
  lemma DoubleFields<W>(rt: Runtime<W>, state: Row<W>)
    requires FromArray(rt, state).Some?
    ensures var s := FromArray(rt, state).value;
      && s.longitude == TryParse(rt.parseDouble, Text(rt, state[5]))
      && s.latitude == TryParse(rt.parseDouble, Text(rt, state[6]))
      && s.baroAltitude == TryParse(rt.parseDouble, Text(rt, state[7]))
      && s.velocity == TryParse(rt.parseDouble, Text(rt, state[9]))
      && s.trueTrack == TryParse(rt.parseDouble, Text(rt, state[10]))
      && s.verticalRate == TryParse(rt.parseDouble, Text(rt, state[11]))
      && s.geoAltitude == TryParse(rt.parseDouble, Text(rt, state[13]))
  {
  }

  /** Only the read positions matter: two rows of the same length that agree
      on positions 0 to 17 except 12 decode identically. */
  lemma DecodeDependsOnlyOnReadIndices<W>(rt: Runtime<W>, a: Row<W>, b: Row<W>)
    requires |a| == |b|
    requires forall i | 0 <= i < |a| && IsReadIndex(i) :: a[i] == b[i]
    ensures FromArray(rt, a) == FromArray(rt, b)
  {
    if |a| >= MinRowLength {
      assert a[0] == b[0] && a[1] == b[1] && a[2] == b[2] && a[3] == b[3];
      assert a[4] == b[4] && a[5] == b[5] && a[6] == b[6] && a[7] == b[7];
      assert a[8] == b[8] && a[9] == b[9] && a[10] == b[10] && a[11] == b[11];
      assert a[13] == b[13] && a[14] == b[14] && a[15] == b[15] && a[16] == b[16];
      assert ConvertCategory(rt, a) == ConvertCategory(rt, b) by {
        assert |a| > 17 ==> a[17] == b[17];
      }
      assert Build(rt, a) == Build(rt, b);
    }
  }

  /** Element 12 is never read. */
  lemma Element12NeverRead<W>(rt: Runtime<W>, state: Row<W>, x: Option<W>)
    requires |state| > 12
    ensures FromArray(rt, state[12 := x]) == FromArray(rt, state)
  {
    DecodeDependsOnlyOnReadIndices(rt, state[12 := x], state);
  }
}
