/** The command-line viewer: loops over the tokens of a dump that pick out what it shows. */
module DumpViewer {
  import opened JsonLexer
  import opened JsonNumber
  import opened JsonReader

  const MAX_PROCS: nat := 10

  datatype Trigger = Trigger(
    kind: string, pid: int, comm: string,
    cpuPct: real, baselinePct: real, deltaPct: real,
    memAvailableKib: int, memBaselineKib: int, memDeltaKib: int, memUsedPct: real,
    swapUsedKib: int, swapBaselineKib: int, swapDeltaKib: int)

  const NO_TRIGGER := Trigger("", 0, "", 0.0, 0.0, 0.0, 0, 0, 0, 0.0, 0, 0, 0)

  datatype Proc = Proc(
    pid: int, ppid: int, uid: int, state: char, comm: string, cmdline: string,
    cpuPct: real, rssKib: int)

  const NO_PROC := Proc(0, 0, 0, '\0', "", "", 0.0, 0)

  datatype Summary = Summary(
    timestampNs: int, trigger: Trigger, cpuProcs: seq<Proc>, rssProcs: seq<Proc>, gotFirst: bool)

  const NO_SUMMARY := Summary(0, NO_TRIGGER, [], [], false)

  // ----- one field -----

  /** Narrowing casts keep the low bits. */
  function AsI32(n: int): int {
    (n + 0x8000_0000) % 0x1_0000_0000 - 0x8000_0000
  }

  function AsU32(n: int): int {
    n % 0x1_0000_0000
  }

  lemma CastsKeepLowBits(n: int)
    ensures -0x8000_0000 <= AsI32(n) < 0x8000_0000 && (AsI32(n) - n) % 0x1_0000_0000 == 0
    ensures 0 <= AsU32(n) < 0x1_0000_0000 && (AsU32(n) - n) % 0x1_0000_0000 == 0
  {
  }

  predicate IsTriggerKey(key: string) {
    key in ["type", "pid", "comm", "cpu_pct", "baseline_pct", "delta_pct",
            "mem_available_kib", "mem_baseline_kib", "mem_delta_kib", "mem_used_pct",
            "swap_used_kib", "swap_baseline_kib", "swap_delta_kib"]
  }

  /** Stores the reader's current string or number under a trigger key. */
  function SetTrigger(t: Trigger, key: string, str: string, num: string): Trigger {
    if key == "type" then t.(kind := Truncate(str, 31))
    else if key == "pid" then t.(pid := AsI32(GetInt(num)))
    else if key == "comm" then t.(comm := Truncate(str, 15))
    else if key == "cpu_pct" then t.(cpuPct := Strtod(num))
    else if key == "baseline_pct" then t.(baselinePct := Strtod(num))
    else if key == "delta_pct" then t.(deltaPct := Strtod(num))
    else if key == "mem_available_kib" then t.(memAvailableKib := GetInt(num))
    else if key == "mem_baseline_kib" then t.(memBaselineKib := GetInt(num))
    else if key == "mem_delta_kib" then t.(memDeltaKib := GetInt(num))
    else if key == "mem_used_pct" then t.(memUsedPct := Strtod(num))
    else if key == "swap_used_kib" then t.(swapUsedKib := GetInt(num))
    else if key == "swap_baseline_kib" then t.(swapBaselineKib := GetInt(num))
    else if key == "swap_delta_kib" then t.(swapDeltaKib := GetInt(num))
    else t
  }

  predicate IsProcKey(key: string) {
    key in ["pid", "ppid", "uid", "state", "comm", "cmdline", "cpu_pct", "rss_kib"]
  }

  function SetProc(p: Proc, key: string, str: string, num: string): Proc {
    if key == "pid" then p.(pid := AsI32(GetInt(num)))
    else if key == "ppid" then p.(ppid := AsI32(GetInt(num)))
    else if key == "uid" then p.(uid := AsU32(GetInt(num)))
    else if key == "state" then p.(state := if str != "" then str[0] else '?')
    else if key == "comm" then p.(comm := Truncate(str, 15))
    else if key == "cmdline" then p.(cmdline := Truncate(str, 255))
    else if key == "cpu_pct" then p.(cpuPct := Strtod(num))
    else if key == "rss_kib" then p.(rssKib := GetInt(num))
    else p
  }

  // ----- reading on to the end of the text -----

  lemma ReachesNext(st: State)
    requires Reaches(st.rest)
    ensures var n := Next(st);
            && Reaches(n.rest)
            && |n.rest| <= |st.rest|
            && (!n.kind.KEof? ==> |n.rest| < |st.rest|)
  {
    var l := Lex(st.rest);
    assert Stream(st.rest) == if l.token.Eof? then End
                              else if |l.rest| == |st.rest| then Stuck
                              else Cons(l.token, Stream(l.rest));
    if l.token.Eof? {
      assert Lex("").token.Eof?;
    }
  }

  lemma ReachesSkipTo(st: State, start: int)
    requires Reaches(st.rest)
    ensures Reaches(SkipTo(st, start).st.rest)
    decreases |st.rest|
  {
    ReachesNext(st);
    SkipToStep(st, Next(st), start);
    var n := Next(st);
    if !n.kind.KEof? && !n.kind.KError? && n.depth >= start {
      ReachesSkipTo(n, start);
    }
  }

  lemma ReachesSkip(st: State)
    requires Reaches(st.rest)
    ensures Reaches(Skip(st).st.rest)
  {
    ReachesSkipTo(st, st.depth);
  }

  // ----- the loops, as functions of the reader's state -----

  function TriggerFrom(st: State, t: Trigger): (r: (State, Trigger))
    requires Reaches(st.rest)
    ensures Reaches(r.0.rest) && |r.0.rest| <= |st.rest|
    decreases |st.rest|
  {
    ReachesNext(st);
    var n := Next(st);
    if n.kind.KObjectEnd? || n.kind.KEof? then (n, t)
    else if n.kind.KKey? && IsTriggerKey(n.key) then
      ReachesNext(n);
      TriggerFrom(Next(n), SetTrigger(t, n.key, Next(n).str, Next(n).num))
    else TriggerFrom(n, t)
  }

  function ProcFrom(st: State, p: Proc): (r: (State, Proc))
    requires Reaches(st.rest)
    ensures Reaches(r.0.rest) && |r.0.rest| <= |st.rest|
    decreases |st.rest|
  {
    ReachesNext(st);
    var n := Next(st);
    if n.kind.KObjectEnd? || n.kind.KEof? then (n, p)
    else if n.kind.KKey? then
      ReachesNext(n);
      var m := Next(n);
      if IsProcKey(n.key) then ProcFrom(m, SetProc(p, n.key, m.str, m.num))
      else
        ReachesSkip(m);
        ProcFrom(Skip(m).st, p)
    else ProcFrom(n, p)
  }

  function ProcsFrom(st: State, procs: seq<Proc>): (r: (State, seq<Proc>))
    requires Reaches(st.rest)
    ensures Reaches(r.0.rest) && |r.0.rest| <= |st.rest|
    decreases |st.rest|
  {
    ReachesNext(st);
    var n := Next(st);
    if n.kind.KArrayEnd? || n.kind.KEof? then (n, procs)
    else if n.kind.KObjectStart? && |procs| < MAX_PROCS then
      var (m, p) := ProcFrom(n, NO_PROC);
      ProcsFrom(m, procs + [p])
    else ProcsFrom(n, procs)
  }

  /** No list that is shown has more than ten entries, however many the text has. */
  lemma {:induction false} AtMostTen(st: State, procs: seq<Proc>)
    requires Reaches(st.rest) && |procs| <= 10
    ensures |ProcsFrom(st, procs).1| <= 10
    decreases |st.rest|
  {
    ReachesNext(st);
    var n := Next(st);
    if n.kind.KArrayEnd? || n.kind.KEof? {
    } else if n.kind.KObjectStart? && |procs| < MAX_PROCS {
      var (m, p) := ProcFrom(n, NO_PROC);
      AtMostTen(m, procs + [p]);
    } else {
      AtMostTen(n, procs);
    }
  }

  function FirstSnapshotFrom(st: State, s: Summary): (r: (State, Summary))
    requires Reaches(st.rest)
    ensures Reaches(r.0.rest) && |r.0.rest| <= |st.rest|
    decreases |st.rest|
  {
    ReachesNext(st);
    var n := Next(st);
    if n.kind.KObjectEnd? || n.kind.KEof? then (n, s)
    else if n.kind.KKey? then
      ReachesNext(n);
      var m := Next(n);
      if n.key == "procs" then
        if m.kind.KArrayStart? then
          var (m, ps) := ProcsFrom(m, []);
          FirstSnapshotFrom(m, s.(cpuProcs := ps))
        else FirstSnapshotFrom(m, s)
      else if n.key == "top_rss_procs" then
        if m.kind.KArrayStart? then
          var (m, ps) := ProcsFrom(m, []);
          FirstSnapshotFrom(m, s.(rssProcs := ps))
        else FirstSnapshotFrom(m, s)
      else
        ReachesSkip(m);
        FirstSnapshotFrom(Skip(m).st, s)
    else FirstSnapshotFrom(n, s)
  }

  function SnapshotsFrom(st: State, s: Summary): (r: (State, Summary))
    requires Reaches(st.rest)
    ensures Reaches(r.0.rest) && |r.0.rest| <= |st.rest|
    decreases |st.rest|
  {
    ReachesNext(st);
    var n := Next(st);
    if n.kind.KArrayEnd? || n.kind.KEof? then (n, s)
    else if n.kind.KObjectStart? && !s.gotFirst then
      var (m, s) := FirstSnapshotFrom(n, s);
      SnapshotsFrom(m, s.(gotFirst := true))
    else SnapshotsFrom(n, s)
  }

  function SummaryFrom(st: State, s: Summary): Summary
    requires Reaches(st.rest)
    decreases |st.rest|
  {
    ReachesNext(st);
    var n := Next(st);
    if n.kind.KEof? then s
    else if n.kind.KKey? && n.key == "dump_timestamp_ns" then
      ReachesNext(n);
      SummaryFrom(Next(n), s.(timestampNs := GetInt(Next(n).num)))
    else if n.kind.KKey? && n.key == "trigger" then
      ReachesNext(n);
      if Next(n).kind.KObjectStart? then
        var (m, t) := TriggerFrom(Next(n), NO_TRIGGER);
        SummaryFrom(m, s.(trigger := t))
      else SummaryFrom(Next(n), s)
    else if n.kind.KKey? && n.key == "snapshots" then
      ReachesNext(n);
      if Next(n).kind.KArrayStart? then
        var (m, s) := SnapshotsFrom(Next(n), s);
        SummaryFrom(m, s)
      else SummaryFrom(Next(n), s)
    else SummaryFrom(n, s)
  }

  // ----- the loops as they run -----

  /** One round of the trigger loop. */
  lemma TriggerRound(st: State, t: Trigger, n: State)
    requires Reaches(st.rest) && n == Next(st)
    ensures Reaches(n.rest)
    ensures n.kind.KObjectEnd? || n.kind.KEof? ==> TriggerFrom(st, t) == (n, t)
    ensures !n.kind.KObjectEnd? && !n.kind.KEof? ==>
              && |n.rest| < |st.rest|
              && (!(n.kind.KKey? && IsTriggerKey(n.key)) ==> TriggerFrom(st, t) == TriggerFrom(n, t))
              && (n.kind.KKey? && IsTriggerKey(n.key) ==>
                    && Reaches(Next(n).rest) && |Next(n).rest| <= |n.rest|
                    && TriggerFrom(st, t) == TriggerFrom(Next(n), SetTrigger(t, n.key, Next(n).str, Next(n).num)))
  {
    ReachesNext(st);
    ReachesNext(n);
  }

  method ParseTrigger(r: Reader) returns (t: Trigger)
    requires r.Valid() && Reaches(r.View().rest)
    modifies r, r.strBuf
    ensures r.Valid() && (r.View(), t) == TriggerFrom(old(r.View()), NO_TRIGGER)
  {
    t := NO_TRIGGER;
    while true
      invariant r.Valid() && Reaches(r.View().rest)
      invariant TriggerFrom(r.View(), t) == TriggerFrom(old(r.View()), NO_TRIGGER)
      decreases |r.View().rest|
    {
      ghost var st := r.View();
      r.NextToken();
      TriggerRound(st, t, r.View());
      if r.kind == KObjectEnd || r.kind == KEof {
        return;
      }
      if r.kind == KKey && IsTriggerKey(r.key) {
        var key := r.key;
        r.NextToken();
        t := SetTrigger(t, key, r.GetString(), r.num);
      }
    }
  }

  lemma ProcRound(st: State, p: Proc, n: State)
    requires Reaches(st.rest) && n == Next(st)
    ensures Reaches(n.rest)
    ensures n.kind.KObjectEnd? || n.kind.KEof? ==> ProcFrom(st, p) == (n, p)
    ensures !n.kind.KObjectEnd? && !n.kind.KEof? ==>
              && |n.rest| < |st.rest|
              && (!n.kind.KKey? ==> ProcFrom(st, p) == ProcFrom(n, p))
              && (n.kind.KKey? ==>
                    var m := Next(n);
                    && Reaches(m.rest) && |m.rest| <= |n.rest|
                    && Reaches(Skip(m).st.rest)
                    && ProcFrom(st, p) == if IsProcKey(n.key) then ProcFrom(m, SetProc(p, n.key, m.str, m.num))
                                          else ProcFrom(Skip(m).st, p))
  {
    ReachesNext(st);
    ReachesNext(n);
    ReachesSkip(Next(n));
  }

  method ParseProcEntry(r: Reader) returns (p: Proc)
    requires r.Valid() && Reaches(r.View().rest)
    modifies r, r.strBuf
    ensures r.Valid() && (r.View(), p) == ProcFrom(old(r.View()), NO_PROC)
  {
    p := NO_PROC;
    while true
      invariant r.Valid() && Reaches(r.View().rest)
      invariant ProcFrom(r.View(), p) == ProcFrom(old(r.View()), NO_PROC)
      decreases |r.View().rest|
    {
      ghost var st := r.View();
      r.NextToken();
      ProcRound(st, p, r.View());
      if r.kind == KObjectEnd || r.kind == KEof {
        return;
      }
      if r.kind == KKey {
        var key := r.key;
        r.NextToken();
        if IsProcKey(key) {
          p := SetProc(p, key, r.GetString(), r.num);
        } else {
          var _ := r.SkipValue();
        }
      }
    }
  }

  lemma ProcsRound(st: State, procs: seq<Proc>, n: State)
    requires Reaches(st.rest) && n == Next(st)
    ensures Reaches(n.rest)
    ensures n.kind.KArrayEnd? || n.kind.KEof? ==> ProcsFrom(st, procs) == (n, procs)
    ensures !n.kind.KArrayEnd? && !n.kind.KEof? ==>
              && |n.rest| < |st.rest|
              && ProcsFrom(st, procs) == if n.kind.KObjectStart? && |procs| < MAX_PROCS
                                         then ProcsFrom(ProcFrom(n, NO_PROC).0, procs + [ProcFrom(n, NO_PROC).1])
                                         else ProcsFrom(n, procs)
  {
    ReachesNext(st);
  }

  method ParseProcsArray(r: Reader) returns (procs: seq<Proc>)
    requires r.Valid() && Reaches(r.View().rest)
    modifies r, r.strBuf
    ensures r.Valid() && (r.View(), procs) == ProcsFrom(old(r.View()), [])
  {
    procs := [];
    while true
      invariant r.Valid() && Reaches(r.View().rest)
      invariant ProcsFrom(r.View(), procs) == ProcsFrom(old(r.View()), [])
      decreases |r.View().rest|
    {
      ghost var st := r.View();
      r.NextToken();
      ProcsRound(st, procs, r.View());
      if r.kind == KArrayEnd || r.kind == KEof {
        return;
      }
      if r.kind == KObjectStart && |procs| < MAX_PROCS {
        var p := ParseProcEntry(r);
        procs := procs + [p];
      }
    }
  }

  lemma FirstSnapshotRound(st: State, s: Summary, n: State)
    requires Reaches(st.rest) && n == Next(st)
    ensures Reaches(n.rest)
    ensures n.kind.KObjectEnd? || n.kind.KEof? ==> FirstSnapshotFrom(st, s) == (n, s)
    ensures !n.kind.KObjectEnd? && !n.kind.KEof? ==>
              && |n.rest| < |st.rest|
              && (!n.kind.KKey? ==> FirstSnapshotFrom(st, s) == FirstSnapshotFrom(n, s))
              && (n.kind.KKey? ==>
                    var m := Next(n);
                    && Reaches(m.rest) && |m.rest| <= |n.rest|
                    && Reaches(Skip(m).st.rest)
                    && FirstSnapshotFrom(st, s) ==
                       if n.key == "procs" then
                         if m.kind.KArrayStart?
                         then FirstSnapshotFrom(ProcsFrom(m, []).0, s.(cpuProcs := ProcsFrom(m, []).1))
                         else FirstSnapshotFrom(m, s)
                       else if n.key == "top_rss_procs" then
                         if m.kind.KArrayStart?
                         then FirstSnapshotFrom(ProcsFrom(m, []).0, s.(rssProcs := ProcsFrom(m, []).1))
                         else FirstSnapshotFrom(m, s)
                       else FirstSnapshotFrom(Skip(m).st, s))
  {
    ReachesNext(st);
    ReachesNext(n);
    ReachesSkip(Next(n));
  }

  method ParseFirstSnapshot(r: Reader, before: Summary) returns (s: Summary)
    requires r.Valid() && Reaches(r.View().rest)
    modifies r, r.strBuf
    ensures r.Valid() && (r.View(), s) == FirstSnapshotFrom(old(r.View()), before)
  {
    s := before;
    while true
      invariant r.Valid() && Reaches(r.View().rest)
      invariant FirstSnapshotFrom(r.View(), s) == FirstSnapshotFrom(old(r.View()), before)
      decreases |r.View().rest|
    {
      ghost var st := r.View();
      r.NextToken();
      FirstSnapshotRound(st, s, r.View());
      if r.kind == KObjectEnd || r.kind == KEof {
        return;
      }
      if r.kind == KKey {
        var key := r.key;
        r.NextToken();
        if key == "procs" {
          if r.kind == KArrayStart {
            var procs := ParseProcsArray(r);
            s := s.(cpuProcs := procs);
          }
        } else if key == "top_rss_procs" {
          if r.kind == KArrayStart {
            var procs := ParseProcsArray(r);
            s := s.(rssProcs := procs);
          }
        } else {
          var _ := r.SkipValue();
        }
      }
    }
  }

  lemma SnapshotsRound(st: State, s: Summary, n: State)
    requires Reaches(st.rest) && n == Next(st)
    ensures Reaches(n.rest)
    ensures n.kind.KArrayEnd? || n.kind.KEof? ==> SnapshotsFrom(st, s) == (n, s)
    ensures !n.kind.KArrayEnd? && !n.kind.KEof? ==>
              && |n.rest| < |st.rest|
              && SnapshotsFrom(st, s) == if n.kind.KObjectStart? && !s.gotFirst
                                         then SnapshotsFrom(FirstSnapshotFrom(n, s).0,
                                                            FirstSnapshotFrom(n, s).1.(gotFirst := true))
                                         else SnapshotsFrom(n, s)
  {
    ReachesNext(st);
  }

  method ParseSnapshots(r: Reader, before: Summary) returns (s: Summary)
    requires r.Valid() && Reaches(r.View().rest)
    modifies r, r.strBuf
    ensures r.Valid() && (r.View(), s) == SnapshotsFrom(old(r.View()), before)
  {
    s := before;
    while true
      invariant r.Valid() && Reaches(r.View().rest)
      invariant SnapshotsFrom(r.View(), s) == SnapshotsFrom(old(r.View()), before)
      decreases |r.View().rest|
    {
      ghost var st := r.View();
      r.NextToken();
      SnapshotsRound(st, s, r.View());
      if r.kind == KArrayEnd || r.kind == KEof {
        return;
      }
      if r.kind == KObjectStart && !s.gotFirst {
        s := ParseFirstSnapshot(r, s);
        s := s.(gotFirst := true);
      }
    }
  }

  lemma SummaryRound(st: State, s: Summary, n: State)
    requires Reaches(st.rest) && n == Next(st)
    ensures Reaches(n.rest)
    ensures n.kind.KEof? ==> SummaryFrom(st, s) == s
    ensures !n.kind.KEof? ==>
              && |n.rest| < |st.rest|
              && (!n.kind.KKey? ==> SummaryFrom(st, s) == SummaryFrom(n, s))
              && (n.kind.KKey? ==>
                    var m := Next(n);
                    && Reaches(m.rest) && |m.rest| <= |n.rest|
                    && SummaryFrom(st, s) ==
                       if n.key == "dump_timestamp_ns" then SummaryFrom(m, s.(timestampNs := GetInt(m.num)))
                       else if n.key == "trigger" then
                         if m.kind.KObjectStart?
                         then SummaryFrom(TriggerFrom(m, NO_TRIGGER).0, s.(trigger := TriggerFrom(m, NO_TRIGGER).1))
                         else SummaryFrom(m, s)
                       else if n.key == "snapshots" then
                         if m.kind.KArrayStart?
                         then SummaryFrom(SnapshotsFrom(m, s).0, SnapshotsFrom(m, s).1)
                         else SummaryFrom(m, s)
                       else SummaryFrom(n, s))
  {
    ReachesNext(st);
    ReachesNext(n);
  }

  /** The viewer on any text whose end the reader reaches. On no other does its loop end. */
  method ViewDump(data: string) returns (s: Summary)
    requires Reaches(data)
    ensures s == SummaryFrom(Init(data), NO_SUMMARY)
  {
    var r := new Reader(data);
    s := NO_SUMMARY;
    while true
      invariant r.Valid() && fresh(r) && fresh(r.strBuf) && Reaches(r.View().rest)
      invariant SummaryFrom(r.View(), s) == SummaryFrom(Init(data), NO_SUMMARY)
      decreases |r.View().rest|
    {
      ghost var st := r.View();
      r.NextToken();
      SummaryRound(st, s, r.View());
      if r.kind == KEof {
        return;
      }
      if r.kind == KKey {
        var key := r.key;
        if key == "dump_timestamp_ns" {
          r.NextToken();
          s := s.(timestampNs := GetInt(r.num));
        } else if key == "trigger" {
          r.NextToken();
          if r.kind == KObjectStart {
            var t := ParseTrigger(r);
            s := s.(trigger := t);
          }
        } else if key == "snapshots" {
          r.NextToken();
          if r.kind == KArrayStart {
            s := ParseSnapshots(r, s);
          }
        }
      }
    }
  }
}
