/** When the daemon's "last base wins" agrees with section 4 of RFC 8428. */
module SenmlBases {
  import opened Common
  import opened Values
  import opened Senml

  // Records with none of the fields the daemon's reader ignores.
  predicate Plain(rs: seq<Record>) {
    forall r <- rs :: r.data.None? && r.sum.None? && r.baseSum.None?
  }

  // At every record with a value the name in force is already the last one, and the times in
  // force and last give the same sum.
  predicate SettledOn(fl: real -> real, rs: seq<Record>, base: string, time: real) {
    forall i :: 0 <= i < |rs| ==> SettledAt(fl, rs, i, base, time)
  }

  predicate SettledAt(fl: real -> real, rs: seq<Record>, i: int, base: string, time: real)
    requires 0 <= i < |rs|
  {
    HasValue(rs[i]) ==> Agrees(fl, rs[..i + 1], rs[i], base, time)
  }

  predicate Agrees(fl: real -> real, rs: seq<Record>, r: Record, base: string, time: real) {
    BaseNameInForce(rs) == base && fl(r.time + BaseTimeInForce(rs)) == fl(r.time + time)
  }

  predicate Settled(fl: real -> real, rs: seq<Record>) {
    SettledOn(fl, rs, BaseName(rs), BaseTime(rs))
  }

  lemma {:induction false} NameInForceIsRunning(rs: seq<Record>)
    requires BaseNameInForce(rs) != ""
    ensures BaseName(rs) != ""
  {
    if Text(rs[|rs| - 1].baseName) == "" {
      NameInForceIsRunning(rs[..|rs| - 1]);
    }
  }

  lemma SettledInit(fl: real -> real, rs: seq<Record>, base: string, time: real)
    requires rs != [] && SettledOn(fl, rs, base, time)
    ensures SettledOn(fl, rs[..|rs| - 1], base, time)
    ensures HasValue(rs[|rs| - 1]) ==> Agrees(fl, rs, rs[|rs| - 1], base, time)
  {
    var init := rs[..|rs| - 1];
    forall i | 0 <= i < |init| ensures SettledAt(fl, init, i, base, time) {
      assert init[..i + 1] == rs[..i + 1];
      assert SettledAt(fl, rs, i, base, time);
    }
    assert rs[..|rs| - 1 + 1] == rs;
    assert SettledAt(fl, rs, |rs| - 1, base, time);
  }

  lemma ReadIsValue(fl: real -> real, r: Record, base: string, time: real)
    requires r.data.None? && r.sum.None? && r.baseSum.None?
    ensures HasValue(r) <==> ValueOf(r).Some?
    ensures AnyField(r) == ValueOf(r)
    ensures Read(fl, r, base, time)
            == if !HasValue(r) || base + r.name == "" then []
               else [Reading(base + r.name, ValueOf(r).value, fl(r.time + time))]
  {
  }

  // The running base and the settled base are empty together, so they accept the same record.
  lemma SameVerdict(rs: seq<Record>, base: string)
    requires rs != [] && HasValue(rs[|rs| - 1]) && BaseNameInForce(rs) == base && (base == "" ==> BaseName(rs) == "")
    ensures var name := rs[|rs| - 1].name; BaseName(rs) + name == "" <==> base + name == ""
  {
    var name := rs[|rs| - 1].name;
    if base != "" {
      NameInForceIsRunning(rs);
    }
    assert |BaseName(rs) + name| == |BaseName(rs)| + |name| && |base + name| == |base| + |name|;
  }

  lemma {:induction false} SettledAgree(fl: real -> real, rs: seq<Record>, base: string, time: real)
    requires Plain(rs) && SettledOn(fl, rs, base, time) && (base == "" ==> BaseName(rs) == "")
    ensures SequentialReadings(fl, rs) == if Valid(rs) then Some(Readings(fl, rs, base, time)) else None
  {
    if rs != [] {
      SettledInit(fl, rs, base, time);
      SettledAgree(fl, rs[..|rs| - 1], base, time);
      ReadIsValue(fl, rs[|rs| - 1], base, time);
      if HasValue(rs[|rs| - 1]) {
        SameVerdict(rs, base);
      } else {
        assert Readings(fl, rs, base, time) == Readings(fl, rs[..|rs| - 1], base, time);
      }
    }
  }

  // Settled bases: the same lists are accepted, with the same names, values and raw times.
  lemma SettledMeansSame(fl: real -> real, rs: seq<Record>)
    requires Plain(rs) && Settled(fl, rs)
    ensures DaemonReadings(fl, rs) == SequentialReadings(fl, rs)
  {
    SettledAgree(fl, rs, BaseName(rs), BaseTime(rs));
  }

  function Measurements(rs: seq<Record>): nat {
    if rs == [] then 0 else Measurements(rs[..|rs| - 1]) + One(HasValue(rs[|rs| - 1]))
  }

  lemma {:induction false} Counts(fl: real -> real, rs: seq<Record>, base: string, time: real)
    requires Plain(rs)
    ensures |Readings(fl, rs, base, time)| <= Measurements(rs)
    ensures SequentialReadings(fl, rs).Some? ==> |SequentialReadings(fl, rs).value| == Measurements(rs)
  {
    if rs != [] {
      Counts(fl, rs[..|rs| - 1], base, time);
    }
  }

  lemma SameSuffix(a: string, b: string, s: string)
    requires a + s == b + s
    ensures a == b
  {
    assert |a| == |b|;
    assert (a + s)[..|a|] == a && (b + s)[..|b|] == b;
  }

  lemma LastsAgree<T>(a: seq<T>, b: seq<T>, x: T, ys: seq<T>)
    requires a + [x] == b + ys && |ys| <= 1 && |b| <= |a|
    ensures ys == [x] && a == b
  {
    assert |ys| == 1;
    assert (a + [x])[..|a|] == a && (b + ys)[..|a|] == b;
    assert (a + [x])[|a|] == x && (b + ys)[|a|] == ys[0];
  }

  // Equal readings stay equal without the last record, whose bases are then settled.
  lemma SameInit(fl: real -> real, rs: seq<Record>, base: string, time: real)
    requires rs != [] && Plain(rs)
    requires SequentialReadings(fl, rs) == Some(Readings(fl, rs, base, time))
    ensures var init := rs[..|rs| - 1]; SequentialReadings(fl, init) == Some(Readings(fl, init, base, time))
    ensures HasValue(rs[|rs| - 1]) ==> Agrees(fl, rs, rs[|rs| - 1], base, time)
  {
    var init, r := rs[..|rs| - 1], rs[|rs| - 1];
    ReadIsValue(fl, r, base, time);
    Counts(fl, init, base, time);
    var before := SequentialReadings(fl, init).value;
    if HasValue(r) {
      var x := Reading(BaseNameInForce(rs) + r.name, ValueOf(r).value, fl(r.time + BaseTimeInForce(rs)));
      assert SequentialReadings(fl, rs) == Some(before + [x]);
      LastsAgree(before, Readings(fl, init, base, time), x, Read(fl, r, base, time));
      SameSuffix(base, BaseNameInForce(rs), r.name);
    } else {
      assert Readings(fl, rs, base, time) == Readings(fl, init, base, time);
    }
  }

  lemma SettledSnoc(fl: real -> real, rs: seq<Record>, base: string, time: real)
    requires rs != [] && SettledOn(fl, rs[..|rs| - 1], base, time)
    requires HasValue(rs[|rs| - 1]) ==> Agrees(fl, rs, rs[|rs| - 1], base, time)
    ensures SettledOn(fl, rs, base, time)
  {
    var init := rs[..|rs| - 1];
    forall i | 0 <= i < |rs| ensures SettledAt(fl, rs, i, base, time) {
      if i < |init| {
        assert init[..i + 1] == rs[..i + 1] && init[i] == rs[i];
        assert SettledAt(fl, init, i, base, time);
      } else {
        assert rs[..i + 1] == rs;
      }
    }
  }

  lemma {:induction false} SameMeansSettledOn(fl: real -> real, rs: seq<Record>, base: string, time: real)
    requires Plain(rs)
    requires SequentialReadings(fl, rs) == Some(Readings(fl, rs, base, time))
    ensures SettledOn(fl, rs, base, time)
  {
    if rs != [] {
      SameInit(fl, rs, base, time);
      SameMeansSettledOn(fl, rs[..|rs| - 1], base, time);
      SettledSnoc(fl, rs, base, time);
    }
  }

  // ---------- Who accepts ----------

  // Every value without a name of its own stands under a base name in force.
  predicate Covered(rs: seq<Record>) {
    forall i :: 0 <= i < |rs| ==> CoveredAt(rs, i)
  }

  predicate CoveredAt(rs: seq<Record>, i: int)
    requires 0 <= i < |rs|
  {
    HasValue(rs[i]) && rs[i].name == "" ==> BaseNameInForce(rs[..i + 1]) != ""
  }

  lemma CoveredPrefix(rs: seq<Record>, k: nat, i: nat)
    requires i < k <= |rs|
    ensures CoveredAt(rs, i) <==> CoveredAt(rs[..k], i)
  {
    assert rs[..k][..i + 1] == rs[..i + 1] && rs[..k][i] == rs[i];
  }

  lemma CoveredSnoc(rs: seq<Record>)
    requires rs != []
    ensures Covered(rs) <==> Covered(rs[..|rs| - 1])
                             && (HasValue(rs[|rs| - 1]) && rs[|rs| - 1].name == "" ==> BaseNameInForce(rs) != "")
  {
    var k := |rs| - 1;
    assert rs[..k + 1] == rs;
    assert CoveredAt(rs, k) <==> (HasValue(rs[k]) && rs[k].name == "" ==> BaseNameInForce(rs) != "");
    forall i | 0 <= i < k ensures CoveredAt(rs, i) <==> CoveredAt(rs[..k], i) {
      CoveredPrefix(rs, k, i);
    }
  }

  // The sequential reader accepts what the daemon accepts, less the values left without a name
  // by a base name taken back.
  lemma {:induction false} AcceptedExactly(fl: real -> real, rs: seq<Record>)
    requires Plain(rs)
    ensures SequentialReadings(fl, rs).Some? <==> Valid(rs) && Covered(rs)
  {
    if rs != [] {
      var r := rs[|rs| - 1];
      AcceptedExactly(fl, rs[..|rs| - 1]);
      CoveredSnoc(rs);
      ReadIsValue(fl, r, BaseName(rs), BaseTime(rs));
      assert |BaseName(rs) + r.name| == |BaseName(rs)| + |r.name|;
      assert |BaseNameInForce(rs) + r.name| == |BaseNameInForce(rs)| + |r.name|;
      if BaseNameInForce(rs) != "" {
        NameInForceIsRunning(rs);
      }
    }
  }

  // The two readers part on a list exactly when the daemon accepts an uncovered value.
  lemma SameListsAccepted(fl: real -> real, rs: seq<Record>)
    requires Plain(rs)
    ensures (DaemonReadings(fl, rs).Some? <==> SequentialReadings(fl, rs).Some?) <==> (Valid(rs) ==> Covered(rs))
  {
    AcceptedExactly(fl, rs);
  }

  // Whatever the rounding, the readers give the same result on a list exactly when the daemon
  // rejects it or its bases are settled.
  lemma SameExactly(fl: real -> real, rs: seq<Record>)
    requires Plain(rs)
    ensures DaemonReadings(fl, rs) == SequentialReadings(fl, rs) <==> (Valid(rs) ==> Settled(fl, rs))
  {
    AcceptedExactly(fl, rs);
    if Valid(rs) {
      if DaemonReadings(fl, rs) == SequentialReadings(fl, rs) {
        SameMeansSettledOn(fl, rs, BaseName(rs), BaseTime(rs));
      } else if Settled(fl, rs) {
        SettledMeansSame(fl, rs);
      }
    }
  }

  // No record that takes a base name back by naming it empty.
  predicate NoEmptyBase(rs: seq<Record>) {
    forall r <- rs :: r.baseName != Some("")
  }

  lemma {:induction false} RunningIsInForce(rs: seq<Record>)
    requires NoEmptyBase(rs)
    ensures BaseName(rs) == BaseNameInForce(rs)
  {
    if rs != [] {
      RunningIsInForce(rs[..|rs| - 1]);
    }
  }

  // Without such a record every list the daemon accepts is covered.
  lemma {:induction false} NoEmptyBaseCovers(rs: seq<Record>)
    requires Plain(rs) && NoEmptyBase(rs) && Valid(rs)
    ensures Covered(rs)
  {
    if rs != [] {
      NoEmptyBaseCovers(rs[..|rs| - 1]);
      RunningIsInForce(rs);
      CoveredSnoc(rs);
      assert |BaseName(rs) + rs[|rs| - 1].name| == |BaseName(rs)| + |rs[|rs| - 1].name|;
    }
  }

  // ---------- Bases on the first record only ----------

  predicate BasesFirst(rs: seq<Record>) {
    forall i :: 0 < i < |rs| ==> rs[i].baseName.None? && rs[i].baseTime.None?
  }

  lemma {:induction false} FirstBaseHolds(rs: seq<Record>)
    requires rs != [] && BasesFirst(rs)
    ensures BaseName(rs) == BaseNameInForce(rs) == Text(rs[0].baseName)
    ensures BaseTime(rs) == BaseTimeInForce(rs) == Seconds(rs[0].baseTime)
  {
    if |rs| > 1 {
      FirstBaseHolds(rs[..|rs| - 1]);
    } else {
      assert rs[..0] == [];
    }
  }

  lemma FirstIsSettled(fl: real -> real, rs: seq<Record>)
    requires BasesFirst(rs)
    ensures Settled(fl, rs)
  {
    if rs != [] {
      FirstBaseHolds(rs);
      forall i | 0 <= i < |rs| ensures SettledAt(fl, rs, i, BaseName(rs), BaseTime(rs)) {
        FirstBaseHolds(rs[..i + 1]);
      }
    }
  }

  // What the daemon itself sends is read the same by both.
  lemma BasesFirstMeansSame(fl: real -> real, rs: seq<Record>)
    requires Plain(rs) && BasesFirst(rs)
    ensures DaemonReadings(fl, rs) == SequentialReadings(fl, rs)
  {
    FirstIsSettled(fl, rs);
    SettledMeansSame(fl, rs);
  }

  // ---------- Where they part ----------

  function Flag(base: Option<string>, name: string): Record {
    Record(base, None, None, name, 0.0, None, None, Some(true), None, None)
  }

  // A later base name renames the records before it.
  lemma LaterBaseRenames(fl: real -> real)
    ensures var rs := [Flag(Some("a"), "x"), Flag(Some("b"), "y")];
            && Plain(rs) && DaemonReadings(fl, rs).Some? && SequentialReadings(fl, rs).Some?
            && DaemonReadings(fl, rs).value[0].name == "bx" && SequentialReadings(fl, rs).value[0].name == "ax"
  {
    var one, two := [Flag(Some("a"), "x")], [Flag(Some("a"), "x"), Flag(Some("b"), "y")];
    assert two[..1] == one && one[..0] == [];
    assert BaseName(two) == "b" && BaseNameInForce(two) == "b" && BaseNameInForce(one) == "a" && BaseName(one) == "a";
    assert Valid(one);
    assert |Readings(fl, one, "b", BaseTime(two))| == 1;
    assert "a" + "x" == "ax" && "b" + "x" == "bx";
    assert SequentialReadings(fl, []) == Some([]);
    assert SequentialReadings(fl, one) == Some([] + [Reading("ax", BoolValue(true), fl(0.0 + BaseTimeInForce(one)))]);
  }

  // Rounding can hide two different base times: neither record's sum moves.
  lemma RoundingHidesBases(fl: real -> real, a: real, b: real, t: real)
    requires a != b && a != 0.0 && b != 0.0 && fl(t + a) == fl(t + b)
    ensures var rs := [Flag(None, "x").(time := t, baseTime := Some(a)), Flag(None, "y").(time := t, baseTime := Some(b))];
            BaseTimeInForce(rs[..1]) != BaseTime(rs) && DaemonReadings(fl, rs) == SequentialReadings(fl, rs)
  {
    var rs := [Flag(None, "x").(time := t, baseTime := Some(a)), Flag(None, "y").(time := t, baseTime := Some(b))];
    var one := [rs[0]];
    assert rs[..1] == one && rs[..2] == rs && one[..0] == [];
    assert BaseName([]) == "" && BaseNameInForce([]) == "";
    assert BaseName(one) == "" && BaseNameInForce(one) == "" && BaseTimeInForce(one) == a;
    assert SettledAt(fl, rs, 0, BaseName(rs), BaseTime(rs)) && SettledAt(fl, rs, 1, BaseName(rs), BaseTime(rs));
    SettledMeansSame(fl, rs);
  }

  // Taking a base name back is accepted by one reader only.
  lemma EmptyBaseIsIgnored(fl: real -> real)
    ensures var rs := [Flag(Some("a"), ""), Flag(Some(""), "")];
            Plain(rs) && DaemonReadings(fl, rs).Some? && SequentialReadings(fl, rs).None?
  {
    var one, two := [Flag(Some("a"), "")], [Flag(Some("a"), ""), Flag(Some(""), "")];
    assert two[..1] == one && one[..0] == [];
    assert BaseName(one) == "a" && BaseName(two) == "a" && BaseNameInForce(two) == "";
    assert Valid(one);
  }
}
