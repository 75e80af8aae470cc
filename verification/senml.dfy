/**
 SenML records: how the daemon writes and reads them, and the sequential resolution of base
 fields in section 4 of RFC 8428. Times are reals; the rounding of float64 is the parameter fl.
 */
module Senml {
  import opened Common
  import opened Names
  import opened Values

  const TWO_53: int := 0x20_0000_0000_0000
  const SECOND: int := 1_000_000_000
  const MILLI: int := 1_000_000
  const MICRO: int := 1_000

  datatype Number = Int(i: int) | Float(f: real)

  datatype Record = Record(
    baseName: Option<string>, baseTime: Option<real>, baseSum: Option<Number>,
    name: string, time: real,
    number: Option<Number>, text: Option<string>, flag: Option<bool>, data: Option<string>, sum: Option<Number>)

  // Nanoseconds since 1970; ABSENT is the zero time of year 1.
  datatype Variable = Variable(name: string, value: Value, stamp: int)

  const ABSENT: int := -62_135_596_800 * SECOND

  // One measurement with its base fields resolved and its time still raw.
  datatype Reading = Reading(name: string, value: Value, time: real)

  // What a payload's bytes are to the CBOR codec.
  datatype Payload = NoBytes | Malformed | Records(records: seq<Record>)

  // Rounding that leaves the integers alone that a float64 can hold.
  ghost predicate KeepsIntegers(fl: real -> real) {
    forall n: int :: -TWO_53 <= n <= TWO_53 ==> fl(AsReal(n)) == AsReal(n)
  }

  function AsReal(n: int): real {
    n as real
  }

  // ---------- Times ----------

  // Truncation toward zero.
  function Trunc(x: real): int {
    if x >= 0.0 then x.Floor else -(-x).Floor
  }

  function EncodeTime(fl: real -> real, t: int): real {
    if t == ABSENT then 0.0
    else if t % SECOND == 0 then fl((t / SECOND) as real)
    else if t % MILLI == 0 then fl((t / MILLI) as real)
    else if t % MICRO == 0 then fl((t / MICRO) as real)
    else fl(fl(fl((t / SECOND) as real) * SECOND as real) + fl((t % SECOND) as real))
  }

  function ResolveTime(fl: real -> real, x: real): int {
    if x == 0.0 then ABSENT
    else if x > 1.0e17 then Trunc(x)
    else if x > 1.0e14 then Trunc(x) * MICRO
    else if x > 1.0e11 then Trunc(x) * MILLI
    else
      var sec := Trunc(x);
      sec * SECOND + Trunc(fl(fl(x - fl(sec as real)) * SECOND as real))
  }

  // ---------- The daemon's reader ----------

  function Text(s: Option<string>): string {
    if s.Some? then s.value else ""
  }

  function Seconds(t: Option<real>): real {
    if t.Some? then t.value else 0.0
  }

  // The last base wins; an empty one counts as absent.
  function BaseName(rs: seq<Record>): string {
    if rs == [] then ""
    else if Text(rs[|rs| - 1].baseName) != "" then Text(rs[|rs| - 1].baseName)
    else BaseName(rs[..|rs| - 1])
  }

  function BaseTime(rs: seq<Record>): real {
    if rs == [] then 0.0
    else if Seconds(rs[|rs| - 1].baseTime) != 0.0 then Seconds(rs[|rs| - 1].baseTime)
    else BaseTime(rs[..|rs| - 1])
  }

  function One(present: bool): nat {
    if present then 1 else 0
  }

  function ValueFields(r: Record): nat {
    One(r.number.Some?) + One(r.text.Some?) + One(r.flag.Some?) + One(r.data.Some?)
  }

  predicate IsZero(n: Number) {
    match n
    case Int(i) => i == 0
    case Float(f) => f == 0.0
  }

  predicate HasValue(r: Record) {
    ValueFields(r) > 0 || r.sum.Some? || (r.baseSum.Some? && !IsZero(r.baseSum.value))
  }

  predicate RecordOk(r: Record, base: string) {
    ValueFields(r) <= 1 && (HasValue(r) ==> base + r.name != "")
  }

  predicate Valid(rs: seq<Record>) {
    rs == [] || (Valid(rs[..|rs| - 1]) && RecordOk(rs[|rs| - 1], BaseName(rs)))
  }

  function ValueOf(r: Record): Option<Value> {
    if r.number.Some? then
      Some(match r.number.value
           case Int(i) => IntValue(i)
           case Float(f) => FloatValue(f))
    else if r.text.Some? then Some(StringValue(r.text.value))
    else if r.flag.Some? then Some(BoolValue(r.flag.value))
    else None
  }

  function Read(fl: real -> real, r: Record, base: string, time: real): seq<Reading> {
    if base + r.name == "" || ValueOf(r).None? then []
    else [Reading(base + r.name, ValueOf(r).value, fl(r.time + time))]
  }

  function Readings(fl: real -> real, rs: seq<Record>, base: string, time: real): seq<Reading> {
    if rs == [] then []
    else Readings(fl, rs[..|rs| - 1], base, time) + Read(fl, rs[|rs| - 1], base, time)
  }

  function DaemonReadings(fl: real -> real, rs: seq<Record>): Option<seq<Reading>> {
    if Valid(rs) then Some(Readings(fl, rs, BaseName(rs), BaseTime(rs))) else None
  }

  function ToVariable(fl: real -> real, r: Reading): Variable {
    Variable(r.name, r.value, ResolveTime(fl, r.time))
  }

  function Resolved(fl: real -> real, rs: seq<Reading>): (vs: seq<Variable>)
    ensures |vs| == |rs|
  {
    seq(|rs|, i requires 0 <= i < |rs| => ToVariable(fl, rs[i]))
  }

  function Decode(fl: real -> real, p: Payload): Option<seq<Variable>> {
    match p
    case NoBytes => None
    case Malformed => None
    case Records(rs) =>
      match DaemonReadings(fl, rs)
      case None => None
      case Some(readings) => Some(Resolved(fl, readings))
  }

  // ---------- Section 4 of RFC 8428 ----------

  // A base holds from its own record on until another replaces it.
  function BaseNameInForce(rs: seq<Record>): string {
    if rs == [] then ""
    else if rs[|rs| - 1].baseName.Some? then rs[|rs| - 1].baseName.value
    else BaseNameInForce(rs[..|rs| - 1])
  }

  function BaseTimeInForce(rs: seq<Record>): real {
    if rs == [] then 0.0
    else if rs[|rs| - 1].baseTime.Some? then rs[|rs| - 1].baseTime.value
    else BaseTimeInForce(rs[..|rs| - 1])
  }

  function AnyField(r: Record): Option<Value> {
    if r.data.Some? then Some(StringValue(r.data.value)) else ValueOf(r)
  }

  function SequentialReadings(fl: real -> real, rs: seq<Record>): Option<seq<Reading>> {
    if rs == [] then Some([])
    else
      var r := rs[|rs| - 1];
      match SequentialReadings(fl, rs[..|rs| - 1])
      case None => None
      case Some(out) =>
        if ValueFields(r) > 1 then None
        else
          match AnyField(r)
          case None => Some(out)
          case Some(v) =>
            var name := BaseNameInForce(rs) + r.name;
            if name == "" then None else Some(out + [Reading(name, v, fl(r.time + BaseTimeInForce(rs)))])
  }

  // ---------- The daemon's writer ----------

  function RecordOf(fl: real -> real, v: Variable): (r: Record)
    ensures r.name == v.name
  {
    var blank := Record(None, None, None, v.name, EncodeTime(fl, v.stamp), None, None, None, None, None);
    match v.value
    case IntValue(i) => blank.(number := Some(Int(i)))
    case FloatValue(f) => blank.(number := Some(Float(f)))
    case StringValue(s) => blank.(text := Some(s))
    case BoolValue(b) => blank.(flag := Some(b))
    case JsonValue(_) => blank
  }

  function RecordsOf(fl: real -> real, vs: seq<Variable>): (rs: seq<Record>)
    ensures |rs| == |vs|
  {
    seq(|vs|, i requires 0 <= i < |vs| => RecordOf(fl, vs[i]))
  }

  function RecordName(r: Record): string {
    r.name
  }

  function VariableName(v: Variable): string {
    v.name
  }

  // The least time among the records that have one; zero when none has.
  function MinTime(rs: seq<Record>): real
    requires rs != []
  {
    var t := rs[|rs| - 1].time;
    if |rs| == 1 then t
    else
      var m := MinTime(rs[..|rs| - 1]);
      if t != 0.0 && (m == 0.0 || t < m) then t else m
  }

  function Rebase(fl: real -> real, r: Record, first: bool, m: real): Record {
    r.(time := fl(r.time - m), baseTime := if first then Some(m) else r.baseTime)
  }

  // The first record carries the least time and every time becomes an offset from it.
  function Rebased(fl: real -> real, rs: seq<Record>): (out: seq<Record>)
    requires rs != []
    ensures |out| == |rs|
  {
    var m := MinTime(rs);
    if m == 0.0 then rs
    else seq(|rs|, i requires 0 <= i < |rs| => Rebase(fl, rs[i], i == 0, m))
  }

  predicate Supported(vs: seq<Variable>) {
    forall v <- vs :: HasSenmlType(v.value)
  }

  // Any order by name that keeps every record: the sort is not a stable one.
  ghost predicate SortedRecords(fl: real -> real, vs: seq<Variable>, rs: seq<Record>) {
    multiset(rs) == multiset(RecordsOf(fl, vs)) && Ordered(rs, RecordName)
  }

  ghost predicate Encodes(fl: real -> real, vs: seq<Variable>, r: Option<Payload>) {
    if vs == [] then r == Some(NoBytes)
    else if !Supported(vs) then r == None
    else exists rs :: SortedRecords(fl, vs, rs) && rs != [] && r == Some(Records(Rebased(fl, rs)))
  }
}
