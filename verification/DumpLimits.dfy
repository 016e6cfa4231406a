/** How exactly the viewer's values match the originals. */
module DumpLimits {
  import opened JsonValue
  import opened JsonLexer
  import opened JsonRoundTrip
  import opened JsonNumber
  import opened Snapshots
  import opened SpikeDump
  import opened DumpViewer
  import opened DumpReadable
  import opened DumpRoundTrip

  // ----- exactness -----

  /** Cutting off what a lossy string gained does not restore it. */
  lemma {:induction false} TruncatedSeen(s: string, n: nat)
    requires |s| <= n
    ensures Truncate(Seen(s), n) == s <==> Lossless(s)
  {
    hide Seen, SeenChar;
    if Lossless(s) {
      SeenIsIdentity(s);
    } else {
      SeenFirst(s);
      if Restored(s[0]) {
        var k :| 0 <= k < |s| && !Restored(s[k]);
        assert s[1..][k - 1] == s[k];
        TruncatedSeen(s[1..], n - 1);
        assert Truncate(Seen(s), n)[1..] == Truncate(Seen(s[1..]), n - 1);
      } else {
        assert Truncate(Seen(s), n)[0] != s[0];
      }
    }
  }

  lemma SeenFirst(s: string)
    requires s != ""
    ensures Seen(s) != "" && (Restored(s[0]) ==> Seen(s) == [s[0]] + Seen(s[1..]))
    ensures !Restored(s[0]) ==> Seen(s)[0] != s[0]
  {
  }

  lemma HundredthsError(x: measure)
    ensures -0.005 <= ShownDec(x) - x <= 0.005
  {
    var y := x * 100.0;
    assert -0.5 <= Hundredths(x) as real - y <= 0.5;
  }

  /** The numbers and strings of an entry that the viewer shows unchanged: pid, parent and user
      always; strings unless they hold a control character other than newline, carriage return or
      tab; memory unless it needs more than a double's precision; CPU to within rounding. */
  lemma ProcShownExactly(e: ProcEntry)
    ensures var p := ShowProc(e);
            && p.pid == e.pid && p.ppid == e.ppid && p.uid == e.uid
            && (p.state == e.state <==> Restored(e.state))
            && (p.comm == e.comm <==> Lossless(e.comm))
            && (p.cmdline == e.cmdline <==> Lossless(e.cmdline))
            && (p.rssKib == e.rssKib <==> Representable(e.rssKib))
            && -0.005 <= p.cpuPct - e.cpuPct <= 0.005
  {
    TruncatedSeen(e.comm, 15);
    TruncatedSeen(e.cmdline, 255);
    RoundIntExact(e.rssKib);
    HundredthsError(e.cpuPct);
    assert ShowState(e.state) == e.state <==> Restored(e.state) by {
      if e.state != '\0' {
        assert Seen([e.state]) == SeenChar(e.state) by { assert [e.state][1..] == ""; }
      }
    }
  }

  lemma TriggerShownExactly(a: Anomaly)
    ensures var t := ShowTrigger(a);
            && t.kind == TypeName(a.kind) && t.pid == a.spikePid
            && (t.comm == a.spikeComm <==> Lossless(a.spikeComm))
            && (t.memAvailableKib == a.memAvailableKib <==> Representable(a.memAvailableKib))
            && (t.memBaselineKib == a.memBaselineKib <==> Representable(a.memBaselineKib))
            && (t.memDeltaKib == a.memDeltaKib <==> Representable(a.memDeltaKib))
            && (t.swapUsedKib == a.swapUsedKib <==> Representable(a.swapUsedKib))
            && (t.swapBaselineKib == a.swapBaselineKib <==> Representable(a.swapBaselineKib))
            && (t.swapDeltaKib == a.swapDeltaKib <==> Representable(a.swapDeltaKib))
            && -0.005 <= t.cpuPct - a.spikeCpuPct <= 0.005
            && -0.005 <= t.baselinePct - a.spikeBaselinePct <= 0.005
            && -0.005 <= t.deltaPct - a.spikeDelta <= 0.005
            && -0.005 <= t.memUsedPct - a.memUsedPct <= 0.005
  {
    TruncatedSeen(a.spikeComm, 15);
    RoundIntExact(a.memAvailableKib);
    RoundIntExact(a.memBaselineKib);
    RoundIntExact(a.memDeltaKib);
    RoundIntExact(a.swapUsedKib);
    RoundIntExact(a.swapBaselineKib);
    RoundIntExact(a.swapDeltaKib);
    HundredthsError(a.spikeCpuPct);
    HundredthsError(a.spikeBaselinePct);
    HundredthsError(a.spikeDelta);
    HundredthsError(a.memUsedPct);
    hide Representable, Hundredths, RoundInt, Seen, Lossless, Truncate, TypeName;
  }

  /** The time of a dump is shown exactly when it is representable, so for the first 2^53 ns, or
      104 days, after boot. */
  lemma TimeShownExactly(d: Dump)
    requires d.snapshots != []
    ensures Shown(d).timestampNs == d.timestampNs <==> Representable(d.timestampNs)
    ensures d.timestampNs <= EXACT_INTEGERS ==> Shown(d).timestampNs == d.timestampNs
  {
    hide ShowTrigger, ShowProcs;
    RoundIntExact(d.timestampNs);
    if d.timestampNs <= EXACT_INTEGERS {
      SmallIsRepresentable(d.timestampNs);
    }
  }
}
