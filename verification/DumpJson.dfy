/** Which dumps are JSON by RFC 8259, for any reader. */
module DumpJson {
  import opened JsonValue
  import opened Snapshots
  import opened SpikeDump
  import opened Rfc8259

  predicate FiniteFields(fs: SpikeDump.Fields) {
    forall i :: 0 <= i < |fs| ==> Finite(fs[i].1)
  }

  lemma {:induction false} FiniteMembersOf(fs: SpikeDump.Fields)
    ensures FiniteMembers(MembersOf(fs)) <==> FiniteFields(fs)
  {
    hide Finite;
    if fs != [] {
      FiniteMembersOf(fs[1..]);
      assert fs == [fs[0]] + fs[1..];
      if Finite(fs[0].1) && FiniteFields(fs[1..]) {
        forall i | 0 <= i < |fs| ensures Finite(fs[i].1) {
          assert i > 0 ==> fs[i] == fs[1..][i - 1];
        }
      }
      assert FiniteFields(fs) ==> forall i :: 0 <= i < |fs[1..]| ==> fs[1..][i] == fs[i + 1];
    }
  }

  lemma FiniteProc(e: ProcEntry)
    ensures Finite(ProcTree(e))
  {
    hide MembersOf;
    FiniteMembersOf(ProcFields(e));
  }

  lemma {:induction false} FiniteProcs(es: seq<ProcEntry>)
    ensures FiniteItems(ProcItems(es))
  {
    hide ProcTree;
    if es != [] {
      FiniteProc(es[0]);
      FiniteProcs(es[1..]);
    }
  }

  lemma {:induction false} FiniteNumbers(xs: seq<measure>)
    ensures FiniteItems(NumberItems(xs))
  {
    if xs != [] {
      FiniteNumbers(xs[1..]);
    }
  }

  lemma FiniteMemExactly(m: MemSnapshot)
    ensures Finite(Obj(MembersOf(MemFields(m)))) <==> m.total != 0
  {
    hide MembersOf;
    var fs := MemFields(m);
    FiniteMembersOf(fs);
    assert Finite(fs[21].1) <==> m.total != 0;
    assert forall i :: 0 <= i < 21 ==> fs[i].1.Int?;
  }

  lemma FiniteSnapshotExactly(s: Snapshot, triggerNs: u64)
    ensures Finite(SnapshotTree(s, triggerNs)) <==> s.mem.total != 0
  {
    FiniteNumbers(s.cpu.perCorePct);
    FiniteMemExactly(s.mem);
    FiniteProcs(s.procs);
    FiniteProcs(s.topRss);
    hide MembersOf, MemFields, NumberItems, ProcItems;
    var fs := SnapshotFields(s, triggerNs);
    FiniteMembersOf(CpuFields(s.cpu));
    FiniteMembersOf(fs);
    assert Finite(fs[4].1) <==> s.mem.total != 0;
    assert |fs| == 7;
  }

  lemma {:induction false} FiniteSnapshotsExactly(ss: seq<Snapshot>, triggerNs: u64)
    ensures FiniteItems(SnapshotItems(ss, triggerNs)) <==> forall s :: s in ss ==> s.mem.total != 0
  {
    hide SnapshotTree;
    if ss != [] {
      FiniteSnapshotExactly(ss[0], triggerNs);
      FiniteSnapshotsExactly(ss[1..], triggerNs);
      assert ss == [ss[0]] + ss[1..];
    }
  }

  lemma FiniteAnomaly(a: Anomaly)
    ensures Finite(AnomalyTree(a))
  {
    hide MembersOf;
    FiniteMembersOf(PolicyFields(a));
    FiniteMembersOf(AnomalyFields(a));
  }

  predicate HasRam(d: Dump) {
    forall s :: s in Written(d.snapshots) ==> s.mem.total != 0
  }

  lemma FiniteDumpExactly(d: Dump)
    ensures Finite(DumpTree(d)) <==> HasRam(d)
  {
    FiniteAnomaly(d.anomaly);
    FiniteSnapshotsExactly(Written(d.snapshots), d.timestampNs);
    hide MembersOf, SnapshotItems, AnomalyTree, Written;
    var head, body := HeadFields(d), BodyFields(d);
    FiniteMembersOf(head + body);
    assert Finite(body[3].1) <==> HasRam(d);
    var n := |head|;
    assert forall i :: 0 <= i < n ==> (head + body)[i] == head[i] && Finite(head[i].1);
    assert (head + body)[n] == body[0] && (head + body)[n + 1] == body[1];
    assert (head + body)[n + 2] == body[2] && (head + body)[n + 3] == body[3];
  }

  /** A dump is JSON exactly when every snapshot in it has RAM; then any reader that keeps to the
      standard sees all of it: command lines of any length and content, integers in full. */
  lemma DumpIsJsonExactly(d: Dump)
    ensures Document(Print(DumpTree(d))) == if HasRam(d) then Got(JsonOf(DumpTree(d)), "") else Fail
  {
    FiniteDumpExactly(d);
    hide DumpTree, Document, HasRam;
    ConformsExactly(DumpTree(d));
  }
}
