/** Which dumps the reader can read to the end. */
module DumpReadable {
  import opened JsonValue
  import opened JsonLexer
  import opened JsonRoundTrip
  import opened Snapshots
  import opened SpikeDump

  // ----- names -----

  /** Field names: short words of lower-case letters and underscores. */
  predicate IsName(k: string) {
    |k| <= 50 && forall i :: 0 <= i < |k| ==> 'a' <= k[i] <= 'z' || k[i] == '_'
  }

  lemma {:induction false} SeenLength(s: string)
    ensures |Seen(s)| <= 5 * |s|
  {
    if s != "" {
      SeenLength(s[1..]);
    }
  }

  lemma NameIsSeen(k: string)
    requires IsName(k)
    ensures Seen(k) == k && Short(k) && Truncate(k, MAX_KEY - 1) == k
  {
    SeenIsIdentity(k);
  }

  // ----- which dumps read back at all -----

  predicate ReadableFields(fs: Fields) {
    forall i :: 0 <= i < |fs| ==> Readable(fs[i].1)
  }

  lemma {:induction false} ReadableMembersOf(fs: Fields)
    requires forall i :: 0 <= i < |fs| ==> |fs[i].0| <= 50
    ensures ReadableMembers(MembersOf(fs)) <==> ReadableFields(fs)
  {
    if fs != [] {
      SeenLength(fs[0].0);
      ReadableMembersOf(fs[1..]);
      assert forall i :: 0 <= i < |fs[1..]| ==> fs[1..][i] == fs[i + 1];
      assert ReadableFields(fs) <==> Readable(fs[0].1) && ReadableFields(fs[1..]) by {
        if Readable(fs[0].1) && ReadableFields(fs[1..]) {
          forall i | 0 <= i < |fs| ensures Readable(fs[i].1) {
            if i > 0 {
              assert fs[i] == fs[1..][i - 1];
            }
          }
        }
      }
    }
  }

  predicate ReadableProc(e: ProcEntry) {
    Short(e.cmdline)
  }

  predicate ReadableSnapshot(s: Snapshot) {
    && s.mem.total != 0
    && (forall e :: e in s.procs ==> ReadableProc(e))
    && (forall e :: e in s.topRss ==> ReadableProc(e))
  }

  lemma ReadableProcExactly(e: ProcEntry)
    ensures Readable(ProcTree(e)) <==> ReadableProc(e)
  {
    hide MembersOf, ReadableFields;
    ReadableMembersOf(ProcFields(e));
    ReadableProcFields(e);
  }

  lemma ReadableProcFields(e: ProcEntry)
    ensures ReadableFields(ProcFields(e)) <==> ReadableProc(e)
    ensures forall i :: 0 <= i < |ProcFields(e)| ==> |ProcFields(e)[i].0| <= 50
  {
    hide Seen, OneChar, DecOf;
    var fs := ProcFields(e);
    OneCharIsShort(e.state);
    SeenLength(e.comm);
    assert Readable(fs[5].1) <==> Short(e.cmdline);
    assert |fs| == 9;
  }

  lemma OneCharIsShort(c: char)
    ensures Short(OneChar(c))
  {
    SeenLength(OneChar(c));
  }

  lemma {:induction false} ReadableProcsExactly(es: seq<ProcEntry>)
    ensures ReadableItems(ProcItems(es)) <==> forall e :: e in es ==> ReadableProc(e)
  {
    if es != [] {
      ReadableProcExactly(es[0]);
      ReadableProcsExactly(es[1..]);
      assert es == [es[0]] + es[1..];
    }
  }

  lemma {:induction false} ReadableNumbers(xs: seq<measure>)
    ensures ReadableItems(NumberItems(xs))
  {
    if xs != [] {
      ReadableNumbers(xs[1..]);
    }
  }

  lemma ReadableMemExactly(m: MemSnapshot)
    ensures Readable(Obj(MembersOf(MemFields(m)))) <==> m.total != 0
  {
    hide MembersOf, ReadableFields, MemFields;
    MemFieldNames(m);
    ReadableMemFields(m);
    ReadableMembersOf(MemFields(m));
  }

  lemma ReadableMemFields(m: MemSnapshot)
    ensures ReadableFields(MemFields(m)) <==> m.total != 0
  {
    hide DecOf, KibToMib, SubU64;
    var fs := MemFields(m);
    assert Readable(fs[21].1) <==> m.total != 0;
    assert forall i :: 0 <= i < 21 ==> fs[i].1.Int?;
    assert |fs| == 22;
  }

  lemma MemFieldNames(m: MemSnapshot)
    ensures forall i :: 0 <= i < |MemFields(m)| ==> |MemFields(m)[i].0| <= 50
  {
    hide UsedPct, KibToMib, SubU64;
  }

  lemma ReadableSnapshotExactly(s: Snapshot, triggerNs: u64)
    ensures Readable(SnapshotTree(s, triggerNs)) <==> ReadableSnapshot(s)
  {
    var fs := SnapshotFields(s, triggerNs);
    ReadableCpu(s.cpu);
    ReadableMemExactly(s.mem);
    ReadableProcsExactly(s.procs);
    ReadableProcsExactly(s.topRss);
    hide MembersOf, ProcItems, MemFields, CpuFields;
    ReadableMembersOf(fs);
    assert Readable(fs[3].1);
    assert Readable(fs[4].1) <==> s.mem.total != 0;
    assert Readable(fs[5].1) <==> ReadableItems(ProcItems(s.procs));
    assert Readable(fs[6].1) <==> ReadableItems(ProcItems(s.topRss));
    assert |fs| == 7;
  }

  lemma ReadableCpu(c: CpuSnapshot)
    ensures Readable(Obj(MembersOf(CpuFields(c))))
  {
    ReadableNumbers(c.perCorePct);
    hide MembersOf, NumberItems;
    ReadableMembersOf(CpuFields(c));
  }

  lemma {:induction false} ReadableSnapshotsExactly(ss: seq<Snapshot>, triggerNs: u64)
    ensures ReadableItems(SnapshotItems(ss, triggerNs)) <==> forall s :: s in ss ==> ReadableSnapshot(s)
  {
    hide SnapshotTree, ReadableSnapshot;
    if ss != [] {
      ReadableSnapshotExactly(ss[0], triggerNs);
      ReadableSnapshotsExactly(ss[1..], triggerNs);
      assert ss == [ss[0]] + ss[1..];
    }
  }

  lemma {:induction false} SeenConcat(a: string, b: string)
    ensures Seen(a + b) == Seen(a) + Seen(b)
  {
    if a == "" {
      assert a + b == b;
    } else {
      assert (a + b)[1..] == a[1..] + b;
      SeenConcat(a[1..], b);
    }
  }

  /** At most 50 characters and two plain ones fit the reader's buffer. */
  lemma ShortText(s: string)
    requires |s| <= 50 || (|s| <= 52 && Restored(s[|s| - 1]) && Restored(s[|s| - 2]))
    ensures Short(s)
  {
    SeenLength(s);
    if |s| > 50 {
      var a, b := s[..|s| - 2], [s[|s| - 2], s[|s| - 1]];
      assert s == a + b;
      SeenConcat(a, b);
      SeenLength(a);
      SeenIsIdentity(b);
    }
  }

  lemma ShortTexts(a: Anomaly)
    ensures Short(TypeName(a.kind)) && Short(TypeDescription(a.kind))
    ensures Short(ScopeName(a.scope)) && Short(ScopeDescription(a.scope))
  {
    hide Short;
    ShortText(TypeName(a.kind));
    ShortText(TypeDescription(a.kind));
    ShortText(ScopeName(a.scope));
    ShortText(ScopeDescription(a.scope));
  }

  lemma ReadableAnomaly(a: Anomaly)
    ensures Readable(AnomalyTree(a))
  {
    var fs := AnomalyFields(a);
    ShortTexts(a);
    SeenLength(a.spikeComm);
    ReadablePolicy(a);
    hide MembersOf, PolicyFields, TypeName, TypeDescription, Seen;
    ReadableMembersOf(fs);
  }

  lemma ReadablePolicy(a: Anomaly)
    ensures Readable(Obj(MembersOf(PolicyFields(a))))
  {
    ShortTexts(a);
    hide MembersOf, ScopeName, ScopeDescription, Seen;
    ReadableMembersOf(PolicyFields(a));
  }

  /** Command lines are the only strings that can be too long for the reader, and the used
      percentage the only number that can lack a value. */
  predicate ReadableDump(d: Dump) {
    forall s :: s in Written(d.snapshots) ==> ReadableSnapshot(s)
  }

  lemma ReadableHead(d: Dump)
    ensures ReadableMembers(MembersOf(HeadFields(d)))
  {
    hide MembersOf, Seen;
    if d.createdAt.Some? {
      SeenLength(d.createdAt.value);
    }
    ReadableMembersOf(HeadFields(d));
  }

  lemma ReadableBodyExactly(d: Dump)
    ensures ReadableMembers(MembersOf(BodyFields(d))) <==> ReadableDump(d)
  {
    ReadableAnomaly(d.anomaly);
    ReadableSnapshotsExactly(Written(d.snapshots), d.timestampNs);
    hide MembersOf, SnapshotItems, AnomalyTree, ReadableSnapshot, Written, Seconds, DecOf;
    var body := BodyFields(d);
    ReadableMembersOf(body);
    assert Readable(body[3].1) <==> ReadableDump(d);
    assert |body| == 4;
  }

  lemma ReadableTreeExactly(d: Dump)
    ensures Readable(DumpTree(d)) <==> ReadableDump(d)
  {
    ReadableHead(d);
    ReadableBodyExactly(d);
    hide MembersOf, HeadFields, BodyFields, ReadableDump;
    ReadableAppend(HeadFields(d), BodyFields(d));
  }

  lemma {:induction false} ReadableAppend(a: Fields, b: Fields)
    ensures ReadableMembers(MembersOf(a + b)) <==> ReadableMembers(MembersOf(a)) && ReadableMembers(MembersOf(b))
  {
    if a == [] {
      assert a + b == b;
    } else {
      assert (a + b)[1..] == a[1..] + b;
      ReadableAppend(a[1..], b);
    }
  }

  /** The text of a dump tokenizes to its end without an error exactly when every written
      snapshot has RAM and every command line decodes to at most 254 bytes. */
  lemma DumpReadsBackExactly(d: Dump)
    ensures Clean(Print(DumpTree(d))) <==> ReadableDump(d)
  {
    ReadableTreeExactly(d);
    CleanExactly(DumpTree(d));
  }
}
