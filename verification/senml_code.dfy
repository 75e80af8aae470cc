/** The SenML codec's loops, proved against the record functions. */
module SenmlCode {
  import opened Common
  import opened Names
  import opened Values
  import opened Senml

  // ---------- Reading ----------

  // At most one of number, text, flag and data; and with one of them, a sum or a base sum that is
  // not zero, a name once the base in force for the list so far is put in front.
  ghost predicate RecordFits(r: Record, base: string) {
    && !(r.number.Some? && r.text.Some?) && !(r.number.Some? && r.flag.Some?) && !(r.number.Some? && r.data.Some?)
    && !(r.text.Some? && r.flag.Some?) && !(r.text.Some? && r.data.Some?) && !(r.flag.Some? && r.data.Some?)
    && (r.name != "" || base != "" ||
        (&& r.number.None? && r.text.None? && r.flag.None? && r.data.None? && r.sum.None?
         && (r.baseSum.None? || r.baseSum.value == Int(0) || r.baseSum.value == Float(0.0))))
  }

  // The last base name that is not empty.
  ghost predicate LastBase(rs: seq<Record>, base: string) {
    if base == "" then forall r <- rs :: r.baseName.None? || r.baseName.value == ""
    else exists k ::
      && 0 <= k < |rs| && rs[k].baseName == Some(base)
      && forall j :: k < j < |rs| ==> rs[j].baseName.None? || rs[j].baseName.value == ""
  }

  lemma {:induction false} BaseNameIsLast(rs: seq<Record>)
    ensures LastBase(rs, BaseName(rs))
  {
    if rs != [] {
      var init, last := rs[..|rs| - 1], rs[|rs| - 1];
      BaseNameIsLast(init);
      assert rs == init + [last];
      if Text(last.baseName) == "" && BaseName(init) != "" {
        var k :| 0 <= k < |init| && init[k].baseName == Some(BaseName(init))
                 && forall j :: k < j < |init| ==> init[j].baseName.None? || init[j].baseName.value == "";
        assert rs[k].baseName == Some(BaseName(rs));
      }
    }
  }

  lemma RecordOkExactly(r: Record, base: string)
    ensures RecordOk(r, base) <==> RecordFits(r, base)
  {
    assert |base + r.name| == |base| + |r.name|;
  }

  // A record fits under the base name in force at it.
  ghost predicate FitsAt(rs: seq<Record>, i: nat)
    requires i < |rs|
  {
    RecordFits(rs[i], BaseName(rs[..i + 1]))
  }

  lemma {:induction false} ValidUpTo(rs: seq<Record>, k: nat)
    requires k <= |rs|
    ensures Valid(rs[..k]) <==> forall i :: 0 <= i < k ==> FitsAt(rs, i)
    decreases k
  {
    if k > 0 {
      var j := k - 1;
      ValidUpTo(rs, j);
      assert rs[..k][..j] == rs[..j];
      RecordOkExactly(rs[j], BaseName(rs[..k]));
      assert Valid(rs[..k]) <==> Valid(rs[..j]) && FitsAt(rs, j);
    }
  }

  // The lists the daemon accepts, record by record.
  lemma ValidExactly(rs: seq<Record>)
    ensures Valid(rs) <==> forall i :: 0 <= i < |rs| ==> FitsAt(rs, i)
  {
    ValidUpTo(rs, |rs|);
    assert rs[..|rs|] == rs;
  }

  method Validate(rs: seq<Record>) returns (ok: bool)
    ensures ok <==> Valid(rs)
  {
    var baseName := "";
    ok := true;
    for i := 0 to |rs|
      invariant baseName == BaseName(rs[..i]) && (ok <==> Valid(rs[..i]))
    {
      var r := rs[i];
      assert rs[..i + 1][..i] == rs[..i];
      if Text(r.baseName) != "" {
        baseName := Text(r.baseName);
      }
      var n := 0;
      if r.number.Some? {
        n := n + 1;
      }
      if r.text.Some? {
        n := n + 1;
      }
      if r.flag.Some? {
        n := n + 1;
      }
      if r.data.Some? {
        n := n + 1;
      }
      if n > 1 {
        ok := false;
      }
      var hasValue := n > 0 || r.sum.Some? || (r.baseSum.Some? && !IsZero(r.baseSum.value));
      if hasValue && baseName + r.name == "" {
        ok := false;
      }
    }
    assert rs[..|rs|] == rs;
  }

  method Bases(rs: seq<Record>) returns (baseName: string, baseTime: real)
    ensures baseName == BaseName(rs) && baseTime == BaseTime(rs)
  {
    baseName, baseTime := "", 0.0;
    for i := 0 to |rs|
      invariant baseName == BaseName(rs[..i]) && baseTime == BaseTime(rs[..i])
    {
      assert rs[..i + 1][..i] == rs[..i];
      if Text(rs[i].baseName) != "" {
        baseName := Text(rs[i].baseName);
      }
      if Seconds(rs[i].baseTime) != 0.0 {
        baseTime := Seconds(rs[i].baseTime);
      }
    }
    assert rs[..|rs|] == rs;
  }

  // What one more record adds.
  function Emitted(fl: real -> real, r: Record, base: string, time: real): seq<Variable> {
    if base + r.name == "" || ValueOf(r).None? then []
    else [Variable(base + r.name, ValueOf(r).value, ResolveTime(fl, fl(r.time + time)))]
  }

  lemma ResolvedSnoc(fl: real -> real, rs: seq<Record>, i: nat, base: string, time: real)
    requires i < |rs|
    ensures Resolved(fl, Readings(fl, rs[..i + 1], base, time))
            == Resolved(fl, Readings(fl, rs[..i], base, time)) + Emitted(fl, rs[i], base, time)
  {
    assert rs[..i + 1][..i] == rs[..i];
  }

  method ToVariables(fl: real -> real, rs: seq<Record>) returns (vs: seq<Variable>)
    ensures vs == Resolved(fl, Readings(fl, rs, BaseName(rs), BaseTime(rs)))
  {
    var baseName, baseTime := Bases(rs);
    vs := [];
    for i := 0 to |rs|
      invariant vs == Resolved(fl, Readings(fl, rs[..i], baseName, baseTime))
    {
      ResolvedSnoc(fl, rs, i, baseName, baseTime);
      var v := VariableFrom(fl, rs[i], baseName, baseTime);
      vs := vs + v;
    }
    assert rs[..|rs|] == rs;
  }

  // The body of the second pass: no name or no value, nothing to add.
  method VariableFrom(fl: real -> real, r: Record, baseName: string, baseTime: real) returns (out: seq<Variable>)
    ensures out == Emitted(fl, r, baseName, baseTime)
  {
    var name := baseName + r.name;
    if name == "" {
      return [];
    }
    var stamp := ResolveTime(fl, fl(r.time + baseTime));
    var v := ValueOf(r);
    out := if v.Some? then [Variable(name, v.value, stamp)] else [];
  }

  method DecodePayload(fl: real -> real, p: Payload) returns (r: Option<seq<Variable>>)
    ensures r == Decode(fl, p)
  {
    match p
    case NoBytes => r := None;
    case Malformed => r := None;
    case Records(rs) =>
      var ok := Validate(rs);
      if ok {
        var vs := ToVariables(fl, rs);
        r := Some(vs);
      } else {
        r := None;
      }
  }

  // ---------- Writing ----------

  method ToRecords(fl: real -> real, vs: seq<Variable>) returns (r: Option<seq<Record>>)
    ensures r.Some? <==> Supported(vs)
    ensures r.Some? ==> SortedRecords(fl, vs, r.value)
  {
    var rs := [];
    for i := 0 to |vs|
      invariant rs == RecordsOf(fl, vs[..i]) && Supported(vs[..i])
    {
      if !HasSenmlType(vs[i].value) {
        assert vs[i] in vs;
        return None;
      }
      rs := rs + [RecordOf(fl, vs[i])];
    }
    assert vs[..|vs|] == vs;
    SortByFits(rs, RecordName);
    r := Some(SortBy(rs, RecordName));
  }

  method LeastTime(a: array<Record>) returns (m: real)
    requires a.Length > 0
    ensures m == MinTime(a[..])
  {
    m := a[0].time;
    for i := 1 to a.Length
      invariant m == MinTime(a[..i])
    {
      assert a[..i + 1][..i] == a[..i];
      if a[i].time != 0.0 && (m == 0.0 || a[i].time < m) {
        m := a[i].time;
      }
    }
    assert a[..a.Length] == a[..];
  }

  // No time at all, or the least of those there are.
  lemma {:induction false} MinTimeIsLeast(rs: seq<Record>)
    requires rs != []
    ensures MinTime(rs) == 0.0 <==> forall r <- rs :: r.time == 0.0
    ensures MinTime(rs) != 0.0 ==> forall r <- rs :: r.time == 0.0 || MinTime(rs) <= r.time
    ensures exists r <- rs :: r.time == MinTime(rs)
  {
    var init, last := rs[..|rs| - 1], rs[|rs| - 1];
    assert rs == init + [last];
    if init != [] {
      MinTimeIsLeast(init);
    }
  }

  // The times are rewritten in place.
  method RebaseTimes(fl: real -> real, a: array<Record>)
    requires a.Length > 0
    modifies a
    ensures a[..] == Rebased(fl, old(a[..]))
  {
    var m := LeastTime(a);
    if m != 0.0 {
      a[0] := a[0].(baseTime := Some(m));
      ShiftTimes(fl, a, m);
    }
  }

  // The first record carries the least time, and all times are counted from it.
  ghost predicate OffsetsFromLeast(fl: real -> real, before: seq<Record>, after: seq<Record>) {
    && |after| == |before| > 0 && after[0].baseTime.Some?
    && var m := after[0].baseTime.value;
       && (exists r <- before :: r.time == m != 0.0) && (forall r <- before :: r.time == 0.0 || m <= r.time)
       && (forall k :: 0 <= k < |after| ==> Offset(fl, before[k], after[k], m, k == 0))
  }

  ghost predicate Offset(fl: real -> real, before: Record, after: Record, m: real, first: bool) {
    after == before.(time := fl(before.time - m), baseTime := if first then Some(m) else before.baseTime)
  }

  ghost predicate NoTimes(rs: seq<Record>) {
    forall r <- rs :: r.time == 0.0
  }

  lemma RebasedIsLeast(fl: real -> real, rs: seq<Record>)
    requires rs != []
    ensures if NoTimes(rs) then Rebased(fl, rs) == rs else OffsetsFromLeast(fl, rs, Rebased(fl, rs))
  {
    MinTimeIsLeast(rs);
    if !NoTimes(rs) {
      var m, out := MinTime(rs), Rebased(fl, rs);
      RebasedAt(fl, rs, 0);
      forall k | 0 <= k < |rs| ensures Offset(fl, rs[k], out[k], m, k == 0) {
        RebasedAt(fl, rs, k);
      }
    }
  }

  lemma RebasedAt(fl: real -> real, rs: seq<Record>, k: nat)
    requires k < |rs| && MinTime(rs) != 0.0
    ensures Offset(fl, rs[k], Rebased(fl, rs)[k], MinTime(rs), k == 0)
  {
    var m := MinTime(rs);
    RebasedElement(fl, rs, m, k);
    RebaseIsOffset(fl, rs[k], k == 0, m);
  }

  lemma RebasedElement(fl: real -> real, rs: seq<Record>, m: real, k: nat)
    requires k < |rs| && m == MinTime(rs) != 0.0
    ensures Rebased(fl, rs)[k] == Rebase(fl, rs[k], k == 0, m)
  {
  }

  lemma RebaseIsOffset(fl: real -> real, r: Record, first: bool, m: real)
    ensures Offset(fl, r, Rebase(fl, r, first, m), m, first)
  {
  }

  method ShiftTimes(fl: real -> real, a: array<Record>, m: real)
    modifies a
    ensures forall k :: 0 <= k < a.Length ==> a[k] == old(a[k]).(time := fl(old(a[k]).time - m))
  {
    for i := 0 to a.Length
      invariant forall k :: 0 <= k < i ==> a[k] == old(a[k]).(time := fl(old(a[k]).time - m))
      invariant forall k :: i <= k < a.Length ==> a[k] == old(a[k])
    {
      a[i] := a[i].(time := fl(a[i].time - m));
    }
  }

  method EncodeBatch(fl: real -> real, vs: seq<Variable>) returns (r: Option<Payload>)
    ensures Encodes(fl, vs, r)
  {
    if vs == [] {
      return Some(NoBytes);
    }
    var sorted := ToRecords(fl, vs);
    if sorted.None? {
      return None;
    }
    ghost var rs := sorted.value;
    assert |multiset(rs)| == |multiset(RecordsOf(fl, vs))|;
    var a := new Record[|sorted.value|](i requires 0 <= i < |sorted.value| => sorted.value[i]);
    assert a[..] == rs;
    RebaseTimes(fl, a);
    r := Some(Records(a[..]));
  }
}
