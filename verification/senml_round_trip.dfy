/** Writing a batch and reading it back, with float64 times. */
module SenmlRoundTrip {
  import opened Common
  import opened Names
  import opened Values
  import opened Senml
  import opened SenmlBases

  // ---------- One time ----------

  // A time that is absent or a whole number of microseconds a float64 can count.
  predicate Countable(t: int) {
    t == ABSENT || (0 <= t <= TWO_53 * MICRO && t % MICRO == 0)
  }

  // The number a countable time goes out as.
  function Ticks(t: int): int {
    if t == ABSENT then 0
    else if t % SECOND == 0 then t / SECOND
    else if t % MILLI == 0 then t / MILLI
    else t / MICRO
  }

  lemma TicksFit(fl: real -> real, t: int)
    requires KeepsIntegers(fl) && Countable(t)
    ensures 0 <= Ticks(t) <= TWO_53
    ensures EncodeTime(fl, t) == AsReal(Ticks(t))
  {
    assert t != ABSENT ==> fl(AsReal(Ticks(t))) == AsReal(Ticks(t));
  }

  // The reader tells units apart by magnitude, so the smaller units need a late enough time.
  predicate Restorable(t: int) {
    t == ABSENT || (t > 0 && t % SECOND == 0) || t > 100_000_000 * SECOND
  }

  function FromTicks(n: int): int {
    if n == 0 then ABSENT
    else if n > 100_000_000_000_000_000 then n
    else if n > 100_000_000_000_000 then n * MICRO
    else if n > 100_000_000_000 then n * MILLI
    else n * SECOND
  }

  lemma ResolveTicks(fl: real -> real, n: int)
    requires KeepsIntegers(fl) && 0 <= n <= TWO_53
    ensures ResolveTime(fl, AsReal(n)) == FromTicks(n)
  {
    assert Trunc(AsReal(n)) == n;
    assert fl(AsReal(n)) == AsReal(n);
    assert fl(AsReal(0)) == 0.0;
  }

  // A whole number of whatever unit: seconds up to 10^11, then milli-, micro- and nanoseconds.
  lemma UnitsByMagnitude(fl: real -> real, n: int)
    requires KeepsIntegers(fl) && n > 0
    ensures ResolveTime(fl, AsReal(n))
            == if n <= 100_000_000_000 then n * 1_000_000_000
               else if n <= 100_000_000_000_000 then n * 1_000_000
               else if n <= 100_000_000_000_000_000 then n * 1_000
               else n
  {
    assert Trunc(AsReal(n)) == n;
    if n <= 100_000_000_000 {
      assert fl(AsReal(n)) == AsReal(n) && fl(AsReal(0)) == 0.0;
    }
  }

  lemma TicksRestoredExactly(t: int)
    requires Countable(t)
    ensures FromTicks(Ticks(t)) == t <==> Restorable(t)
  {
    if t == ABSENT {
    } else if t % SECOND == 0 {
      assert t == Ticks(t) * SECOND;
    } else if t % MILLI == 0 {
      assert t == Ticks(t) * MILLI;
    } else {
      assert t == Ticks(t) * MICRO;
    }
  }

  // A time survives exactly when it is a whole second after 1970, or later than 10^8 seconds.
  lemma TimeRestoredExactly(fl: real -> real, t: int)
    requires KeepsIntegers(fl) && Countable(t)
    ensures ResolveTime(fl, EncodeTime(fl, t)) == t <==> Restorable(t)
  {
    TicksFit(fl, t);
    ResolveTicks(fl, Ticks(t));
    TicksRestoredExactly(t);
  }

  // ---------- A batch of times ----------

  predicate WholeNumber(t: real) {
    0.0 <= t <= AsReal(TWO_53) && t == AsReal(t.Floor)
  }

  // A record as the daemon makes it from a variable.
  predicate Made(r: Record) {
    && WholeNumber(r.time) && r.baseName.None? && r.baseTime.None? && r.baseSum.None?
    && r.data.None? && r.sum.None? && ValueFields(r) == 1
  }

  predicate Written(rs: seq<Record>) {
    forall r <- rs :: Made(r)
  }

  lemma {:induction false} MinIsATime(rs: seq<Record>)
    requires rs != []
    ensures exists i :: 0 <= i < |rs| && rs[i].time == MinTime(rs)
  {
    var n := |rs| - 1;
    if |rs| > 1 && MinTime(rs) != rs[n].time {
      MinIsATime(rs[..n]);
      var i :| 0 <= i < n && rs[..n][i].time == MinTime(rs[..n]);
      assert rs[i].time == MinTime(rs);
    } else {
      assert rs[n].time == MinTime(rs);
    }
  }

  // Offsets and sums stay within the integers a float64 keeps.
  lemma OffsetIsExact(fl: real -> real, t: real, m: real)
    requires KeepsIntegers(fl) && WholeNumber(t) && WholeNumber(m)
    ensures fl(t - m) == t - m && fl(fl(t - m) + m) == t
  {
    assert t - m == AsReal(t.Floor - m.Floor);
    assert fl(AsReal(t.Floor - m.Floor)) == AsReal(t.Floor - m.Floor);
    assert fl(AsReal(t.Floor)) == AsReal(t.Floor);
  }

  lemma MinIsWhole(rs: seq<Record>)
    requires rs != [] && Written(rs)
    ensures WholeNumber(MinTime(rs))
  {
    MinIsATime(rs);
    var j :| 0 <= j < |rs| && rs[j].time == MinTime(rs);
    assert rs[j] in rs;
  }

  lemma {:induction false} NoBases(rs: seq<Record>)
    requires forall r <- rs :: r.baseName.None? && r.baseTime.None?
    ensures BaseName(rs) == "" && BaseTime(rs) == 0.0
  {
    if rs != [] {
      NoBases(rs[..|rs| - 1]);
    }
  }

  lemma RebasedBases(fl: real -> real, rs: seq<Record>)
    requires rs != [] && Written(rs)
    ensures BaseName(Rebased(fl, rs)) == "" && BaseTime(Rebased(fl, rs)) == MinTime(rs)
  {
    var out := Rebased(fl, rs);
    if MinTime(rs) == 0.0 {
      NoBases(rs);
    } else {
      forall i | 0 <= i < |out| ensures out[i].baseName.None? && (i > 0 ==> out[i].baseTime.None?) {
        assert rs[i] in rs;
      }
      FirstBaseHolds(out);
    }
  }

  // ---------- Reading a written batch ----------

  function Named(r: Record): Reading
    requires ValueOf(r).Some?
  {
    Reading(r.name, ValueOf(r).value, r.time)
  }

  // A record that went out and the one it was made of, up to the time it is rebased to.
  ghost predicate CarriesOne(fl: real -> real, out: Record, r: Record, m: real) {
    && ValueOf(r).Some? && ValueOf(out) == ValueOf(r) && ValueFields(out) == 1
    && out.name == r.name && out.baseName.None? && fl(out.time + m) == r.time
  }

  ghost predicate Carries(fl: real -> real, out: seq<Record>, rs: seq<Record>, m: real) {
    |out| == |rs| && forall i :: 0 <= i < |rs| ==> CarriesOne(fl, out[i], rs[i], m)
  }

  lemma {:induction false} CarriedReadings(fl: real -> real, out: seq<Record>, rs: seq<Record>, m: real)
    requires Carries(fl, out, rs, m) && forall r <- rs :: r.name != ""
    ensures |Readings(fl, out, "", m)| == |rs|
    ensures forall i :: 0 <= i < |rs| ==> Readings(fl, out, "", m)[i] == Named(rs[i])
  {
    if rs != [] {
      var k := |rs| - 1;
      CarriedReadings(fl, out[..k], rs[..k], m);
      assert rs[k] in rs && "" + out[k].name == out[k].name;
    }
  }

  lemma {:induction false} CarriedValid(fl: real -> real, out: seq<Record>, rs: seq<Record>, m: real)
    requires Carries(fl, out, rs, m)
    ensures BaseName(out) == ""
    ensures Valid(out) <==> forall r <- rs :: r.name != ""
  {
    if rs != [] {
      var k := |rs| - 1;
      CarriedValid(fl, out[..k], rs[..k], m);
      assert "" + out[k].name == out[k].name;
      assert rs == rs[..k] + [rs[k]];
    }
  }

  // Every raw time the reader adds up is the time that was written.
  lemma RebaseCarries(fl: real -> real, r: Record, first: bool, m: real)
    requires KeepsIntegers(fl) && Made(r) && WholeNumber(m)
    ensures CarriesOne(fl, Rebase(fl, r, first, m), r, m)
    ensures m == 0.0 ==> CarriesOne(fl, r, r, m)
  {
    OffsetIsExact(fl, r.time, m);
  }

  lemma RebasedCarries(fl: real -> real, rs: seq<Record>)
    requires rs != [] && KeepsIntegers(fl) && Written(rs)
    ensures Carries(fl, Rebased(fl, rs), rs, MinTime(rs))
  {
    var out, m := Rebased(fl, rs), MinTime(rs);
    MinIsWhole(rs);
    forall i | 0 <= i < |rs| ensures CarriesOne(fl, out[i], rs[i], m) {
      assert Made(rs[i]);
      RebaseCarries(fl, rs[i], i == 0, m);
    }
  }

  // The reader finds the written names, values and times, or rejects a nameless record.
  lemma WrittenIsRead(fl: real -> real, rs: seq<Record>)
    requires rs != [] && KeepsIntegers(fl) && Written(rs)
    ensures var read := DaemonReadings(fl, Rebased(fl, rs));
            && (read.Some? <==> forall r <- rs :: r.name != "")
            && (read.Some? ==> |read.value| == |rs|
                               && forall i :: 0 <= i < |rs| ==> ValueOf(rs[i]).Some? && read.value[i] == Named(rs[i]))
  {
    RebasedCarries(fl, rs);
    RebasedBases(fl, rs);
    CarriedValid(fl, Rebased(fl, rs), rs, MinTime(rs));
    if forall r <- rs :: r.name != "" {
      CarriedReadings(fl, Rebased(fl, rs), rs, MinTime(rs));
    }
  }

  // ---------- Sorting records is sorting variables ----------

  lemma RecordsCons(fl: real -> real, v: Variable, vs: seq<Variable>)
    ensures RecordsOf(fl, [v] + vs) == [RecordOf(fl, v)] + RecordsOf(fl, vs)
  {
  }

  lemma {:induction false} InsertCommutes(fl: real -> real, v: Variable, vs: seq<Variable>)
    ensures Insert(RecordOf(fl, v), RecordsOf(fl, vs), RecordName) == RecordsOf(fl, Insert(v, vs, VariableName))
  {
    RecordsCons(fl, v, vs);
    if vs != [] {
      assert vs == [vs[0]] + vs[1..];
      RecordsCons(fl, vs[0], vs[1..]);
      assert RecordsOf(fl, vs)[1..] == RecordsOf(fl, vs[1..]);
      InsertCommutes(fl, v, vs[1..]);
      RecordsCons(fl, vs[0], Insert(v, vs[1..], VariableName));
    } else {
      assert [v] + vs == [v];
    }
  }

  lemma {:induction false} SortCommutes(fl: real -> real, vs: seq<Variable>)
    ensures SortBy(RecordsOf(fl, vs), RecordName) == RecordsOf(fl, SortBy(vs, VariableName))
  {
    if vs != [] {
      assert vs == [vs[0]] + vs[1..];
      RecordsCons(fl, vs[0], vs[1..]);
      assert RecordsOf(fl, vs)[1..] == RecordsOf(fl, vs[1..]);
      SortCommutes(fl, vs[1..]);
      InsertCommutes(fl, vs[0], SortBy(vs[1..], VariableName));
    }
  }

  lemma SortedMembers(vs: seq<Variable>)
    ensures forall v :: v in SortBy(vs, VariableName) <==> v in vs
    ensures |SortBy(vs, VariableName)| == |vs|
  {
    var s := SortBy(vs, VariableName);
    SortByFits(vs, VariableName);
    assert |multiset(s)| == |multiset(vs)|;
    forall v ensures v in s <==> v in vs {
      assert v in s <==> v in multiset(s);
      assert v in vs <==> v in multiset(vs);
    }
  }

  // ---------- The round trip ----------

  lemma RecordIsMade(fl: real -> real, v: Variable)
    requires KeepsIntegers(fl) && HasSenmlType(v.value) && Countable(v.stamp)
    ensures Made(RecordOf(fl, v)) && ValueOf(RecordOf(fl, v)) == Some(v.value)
  {
    TicksFit(fl, v.stamp);
    assert AsReal(Ticks(v.stamp)).Floor == Ticks(v.stamp);
  }

  // What a reader makes of the record's own time.
  lemma NamedReturns(fl: real -> real, v: Variable)
    requires HasSenmlType(v.value) && ValueOf(RecordOf(fl, v)) == Some(v.value)
    ensures ToVariable(fl, Named(RecordOf(fl, v))) == Returned(fl, v)
  {
  }

  ghost predicate AllCountable(vs: seq<Variable>) {
    forall v <- vs :: HasSenmlType(v.value) && Countable(v.stamp)
  }

  lemma RecordsAreWritten(fl: real -> real, vs: seq<Variable>)
    requires KeepsIntegers(fl) && AllCountable(vs)
    ensures Written(RecordsOf(fl, vs))
    ensures forall i :: 0 <= i < |vs| ==> ValueOf(RecordsOf(fl, vs)[i]) == Some(vs[i].value)
  {
    forall i | 0 <= i < |vs| ensures Made(RecordsOf(fl, vs)[i]) && ValueOf(RecordsOf(fl, vs)[i]) == Some(vs[i].value) {
      assert vs[i] in vs;
      RecordIsMade(fl, vs[i]);
    }
  }

  function Returned(fl: real -> real, v: Variable): Variable {
    v.(stamp := ResolveTime(fl, EncodeTime(fl, v.stamp)))
  }

  lemma SameNames(fl: real -> real, vs: seq<Variable>)
    ensures (forall r <- RecordsOf(fl, vs) :: r.name != "") <==> forall v <- vs :: v.name != ""
  {
    var rs := RecordsOf(fl, vs);
    assert forall i :: 0 <= i < |vs| ==> rs[i].name == vs[i].name && rs[i] in rs && vs[i] in vs;
  }

  // Every variable comes back with its value, and with its time as the reader resolves it.
  lemma BatchReturns(fl: real -> real, vs: seq<Variable>, rs: seq<Record>)
    requires vs != [] && KeepsIntegers(fl) && AllCountable(vs) && rs == RecordsOf(fl, vs)
    ensures var read := DaemonReadings(fl, Rebased(fl, rs));
            && (read.Some? <==> forall v <- vs :: v.name != "")
            && (read.Some? ==> |read.value| == |vs|
                               && forall i :: 0 <= i < |vs| ==> ToVariable(fl, read.value[i]) == Returned(fl, vs[i]))
  {
    RecordsAreWritten(fl, vs);
    WrittenIsRead(fl, rs);
    SameNames(fl, vs);
    forall i | 0 <= i < |vs| ensures ToVariable(fl, Named(rs[i])) == Returned(fl, vs[i]) {
      assert vs[i] in vs;
      NamedReturns(fl, vs[i]);
    }
  }

  ghost predicate Sendable(vs: seq<Variable>) {
    DistinctKeys(vs, VariableName) && AllCountable(vs)
  }

  lemma ResolvedIs(fl: real -> real, read: seq<Reading>, vs: seq<Variable>)
    requires |read| == |vs| && forall i :: 0 <= i < |vs| ==> ToVariable(fl, read[i]) == Returned(fl, vs[i])
    ensures Resolved(fl, read) == vs <==> forall i :: 0 <= i < |vs| ==> Returned(fl, vs[i]) == vs[i]
  {
    var out := Resolved(fl, read);
    assert forall i :: 0 <= i < |vs| ==> out[i] == Returned(fl, vs[i]);
  }

  lemma DecodedExactly(fl: real -> real, vs: seq<Variable>, rs: seq<Record>)
    requires vs != [] && KeepsIntegers(fl) && AllCountable(vs) && rs == RecordsOf(fl, vs)
    ensures Decode(fl, Records(Rebased(fl, rs))) == Some(vs)
            <==> forall v <- vs :: v.name != "" && Restorable(v.stamp)
  {
    var read := DaemonReadings(fl, Rebased(fl, rs));
    BatchReturns(fl, vs, rs);
    ReturnedExactly(fl, vs);
    if read.Some? {
      ResolvedIs(fl, read.value, vs);
    }
  }

  // With distinct names there is only one way to sort.
  lemma SortedIsUnique(fl: real -> real, vs: seq<Variable>, rs: seq<Record>)
    requires DistinctKeys(vs, VariableName) && SortedRecords(fl, vs, rs)
    ensures rs == RecordsOf(fl, SortBy(vs, VariableName))
  {
    SortCommutes(fl, vs);
    SortByFits(RecordsOf(fl, vs), RecordName);
    assert DistinctKeys(RecordsOf(fl, vs), RecordName);
    SortedKeepsDistinct(RecordsOf(fl, vs), rs, RecordName);
    SortedListIsUnique(rs, SortBy(RecordsOf(fl, vs), RecordName), RecordName);
  }

  // Encoding a batch and decoding it gives the batch sorted by name, exactly when there is a
  // batch, everything in it has a name and every time is one the reader can tell the unit of.
  lemma RoundTripExactly(fl: real -> real, vs: seq<Variable>, sent: Option<Payload>)
    requires KeepsIntegers(fl) && Sendable(vs) && Encodes(fl, vs, sent)
    ensures sent.Some?
    ensures Decode(fl, sent.value) == Some(SortBy(vs, VariableName))
            <==> vs != [] && forall v <- vs :: v.name != "" && Restorable(v.stamp)
  {
    if vs != [] {
      var rs :| SortedRecords(fl, vs, rs) && rs != [] && sent == Some(Records(Rebased(fl, rs)));
      SortedIsUnique(fl, vs, rs);
      SortedMembers(vs);
      DecodedExactly(fl, SortBy(vs, VariableName), rs);
    }
  }

  lemma ReturnedExactly(fl: real -> real, vs: seq<Variable>)
    requires KeepsIntegers(fl) && forall v <- vs :: Countable(v.stamp)
    ensures (forall i :: 0 <= i < |vs| ==> Returned(fl, vs[i]) == vs[i]) <==> forall v <- vs :: Restorable(v.stamp)
  {
    forall i | 0 <= i < |vs| ensures Returned(fl, vs[i]) == vs[i] <==> Restorable(vs[i].stamp) {
      assert vs[i] in vs;
      TimeRestoredExactly(fl, vs[i].stamp);
    }
  }

  lemma RecordsArePlain(fl: real -> real, vs: seq<Variable>, rs: seq<Record>)
    requires SortedRecords(fl, vs, rs)
    ensures Plain(rs) && forall r <- rs :: r.baseName.None? && r.baseTime.None?
  {
    forall r | r in rs ensures r.data.None? && r.sum.None? && r.baseSum.None? && r.baseName.None? && r.baseTime.None? {
      assert r in multiset(rs);
      assert r in RecordsOf(fl, vs);
    }
  }

  // Everything the daemon sends means the same to a reader that follows section 4 of RFC 8428.
  lemma SentReadsTheSame(fl: real -> real, vs: seq<Variable>, sent: Option<Payload>)
    requires Encodes(fl, vs, sent) && sent.Some? && sent.value.Records?
    ensures DaemonReadings(fl, sent.value.records) == SequentialReadings(fl, sent.value.records)
  {
    var rs :| SortedRecords(fl, vs, rs) && rs != [] && sent == Some(Records(Rebased(fl, rs)));
    var out := Rebased(fl, rs);
    RecordsArePlain(fl, vs, rs);
    forall i | 0 <= i < |out|
      ensures out[i].data.None? && out[i].sum.None? && out[i].baseSum.None? && out[i].baseName.None?
      ensures i > 0 ==> out[i].baseTime.None?
    {
      assert rs[i] in rs;
    }
    BasesFirstMeansSame(fl, out);
  }
}
