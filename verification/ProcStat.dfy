// readCPUTimes: busy times from /proc/<pid>/stat and /proc/stat.
module ProcStat {
  import opened Words
  import opened Options
  import opened Text
  import opened RaplMethod

  // utime + stime, at the positions they have after the name.
  function TimeIn(fields: seq<string>): Option<u64>
  {
    if |fields| < 13 then None
    else Some(Add64(ParseUint(fields[11]).value, ParseUint(fields[12]).value))
  }

  // The busy time in /proc/<pid>/stat: the name ends at the last closing parenthesis.
  function PidTime(data: string): Option<u64>
  {
    var end := LastIndex(data, ')');
    if end < 0 then None else TimeIn(Fields(data[end + 1..]))
  }

  // strings.Cut at the first newline
  function FirstLine(data: string): string { data[..Index(data, '\n')] }

  // Sum of the fields but idle and iowait; position k of the whole line's
  // values is the first of these.
  function BusyFields(fields: seq<string>, k: nat): u64
  {
    if fields == [] then 0
    else
      var n := |fields| - 1;
      var sum := BusyFields(fields[..n], k);
      if k + n == 3 || k + n == 4 then sum else Add64(sum, ParseUint(fields[n]).value)
  }

  function TotalIn(fields: seq<string>): Option<u64>
  {
    if |fields| < 8 || fields[0] != "cpu" then None else Some(BusyFields(fields[1..], 0))
  }

  function SystemTime(data: string): Option<u64> { TotalIn(Fields(FirstLine(data))) }

  function CpuTimesOf(pidStat: Option<string>, stat: Option<string>): Option<CpuTimes>
  {
    if pidStat.Some? && stat.Some? && PidTime(pidStat.value).Some? && SystemTime(stat.value).Some?
    then Some(CpuTimes(PidTime(pidStat.value).value, SystemTime(stat.value).value))
    else None
  }

  // The arguments are what reading the two files gave.
  method ReadCPUTimes(pidStat: Option<string>, stat: Option<string>) returns (r: Option<CpuTimes>)
    ensures r == CpuTimesOf(pidStat, stat)
  {
    if pidStat.None? {
      return None;
    }
    var data := pidStat.value;
    var end := LastIndex(data, ')');
    if end < 0 {
      return None;
    }
    var fields := Fields(data[end + 1..]);
    if |fields| < 13 {
      return None;
    }
    var utime := ParseUint(fields[11]).value;
    var stime := ParseUint(fields[12]).value;
    var pid := Add64(utime, stime);
    if stat.None? {
      return None;
    }
    var line := FirstLine(stat.value);
    fields := Fields(line);
    if |fields| < 8 || fields[0] != "cpu" {
      return None;
    }
    var values := fields[1..];
    var total: u64 := 0;
    for i := 0 to |values|
      invariant total == BusyFields(values[..i], 0)
    {
      assert values[..i + 1][..i] == values[..i];
      if i == 3 || i == 4 {
        continue;
      }
      var v := ParseUint(values[i]).value;
      total := Add64(total, v);
    }
    assert values[..|values|] == values;
    return Some(CpuTimes(pid, total));
  }

  // ---------- the line of a process ----------

  // A line in the format of proc(5): pid, name in parentheses, then the other
  // fields, the twelfth and thirteenth of them being utime and stime.
  function RenderPidStat(pid: nat, comm: string, fields: seq<string>): string
  {
    Itoa(pid) + " (" + comm + ")" + Spaced(fields) + "\n"
  }

  ghost predicate PlainFields(fields: seq<string>)
  {
    forall i :: 0 <= i < |fields| ==> IsToken(fields[i]) && ')' !in fields[i]
  }

  lemma {:induction false} SpacedWithout(fields: seq<string>, c: char)
    requires c != ' ' && forall i :: 0 <= i < |fields| ==> c !in fields[i]
    ensures c !in Spaced(fields)
  {
    if fields != [] {
      SpacedWithout(fields[1..], c);
      assert Spaced(fields) == " " + fields[0] + Spaced(fields[1..]);
    }
  }

  lemma {:induction false} AfterName(before: string, after: string)
    requires ')' !in after
    ensures PidTime(before + [')'] + after) == TimeIn(Fields(after))
  {
    hide Fields, TimeIn;
    LastIndexAt(before, ')', after);
    assert (before + [')'] + after)[|before| + 1..] == after;
  }

  // Whatever the name contains, spaces, parentheses and newlines included, the
  // busy time of the process is read back.
  lemma {:induction false} PidTimeRoundTrip(pid: nat, comm: string, fields: seq<string>, utime: u64, stime: u64)
    requires PlainFields(fields) && |fields| >= 13
    requires fields[11] == Itoa(utime) && fields[12] == Itoa(stime)
    ensures PidTime(RenderPidStat(pid, comm, fields)) == Some(Add64(utime, stime))
    ensures utime + stime < TWO_TO_64 ==> PidTime(RenderPidStat(pid, comm, fields)) == Some(utime + stime)
  {
    hide Fields, PidTime, ParseUint, Itoa, Spaced;
    var before := Itoa(pid) + " (" + comm;
    var after := Spaced(fields) + "\n";
    SpacedWithout(fields, ')');
    assert RenderPidStat(pid, comm, fields) == before + [')'] + after;
    AfterName(before, after);
    FieldsSpaced(fields, "\n");
    ParseUintItoa(utime);
    ParseUintItoa(stime);
  }

  // ---------- the system line ----------

  function Numbers(values: seq<u64>): (ts: seq<string>)
    ensures |ts| == |values|
    ensures forall i :: 0 <= i < |values| ==> ts[i] == Itoa(values[i])
  {
    if values == [] then [] else Numbers(values[..|values| - 1]) + [Itoa(values[|values| - 1])]
  }

  function RenderStat(values: seq<u64>, rest: string): string
  {
    "cpu " + Spaced(Numbers(values)) + "\n" + rest
  }

  // The total without idle and iowait, as a plain sum.
  function Busy(values: seq<u64>): nat
  {
    if values == [] then 0
    else
      var n := |values| - 1;
      Busy(values[..n]) + if n == 3 || n == 4 then 0 else values[n]
  }

  lemma {:induction false} Residue64(sum: nat, v: u64)
    ensures Add64(sum % TWO_TO_64, v) == (sum + v) % TWO_TO_64
  {
    AddResidue(sum, v);
  }

  lemma {:induction false} NothingBusy()
    ensures BusyFields([], 0) == 0
  {
  }

  lemma {:induction false} BusyStep(fields: seq<string>, last: string)
    ensures BusyFields(fields + [last], 0) ==
            if |fields| == 3 || |fields| == 4 then BusyFields(fields, 0)
            else Add64(BusyFields(fields, 0), ParseUint(last).value)
  {
    hide ParseUint, Add64;
    assert (fields + [last])[..|fields|] == fields;
  }

  lemma {:induction false} BusyFieldsNumbers(values: seq<u64>)
    ensures BusyFields(Numbers(values), 0) == Busy(values) % TWO_TO_64
  {
    hide ParseUint, Itoa, Add64, BusyFields;
    if values == [] {
      NothingBusy();
    } else {
      var n := |values| - 1;
      BusyFieldsNumbers(values[..n]);
      BusyStep(Numbers(values[..n]), Itoa(values[n]));
      ParseUintItoa(values[n]);
      Residue64(Busy(values[..n]), values[n]);
    }
  }

  lemma {:induction false} NumbersPlain(values: seq<u64>)
    ensures forall i :: 0 <= i < |values| ==> IsToken(Numbers(values)[i]) && '\n' !in Numbers(values)[i]
  {
    forall i | 0 <= i < |values| ensures IsToken(Numbers(values)[i]) && '\n' !in Numbers(values)[i] {
      ItoaIsToken(values[i]);
    }
  }

  lemma {:induction false} FirstLineOf(line: string, rest: string)
    requires '\n' !in line
    ensures FirstLine(line + "\n" + rest) == line
  {
    IndexAt(line, '\n', rest);
    assert line + "\n" + rest == line + ['\n'] + rest;
  }

  lemma {:induction false} FieldsAfter(first: string, ts: seq<string>)
    requires IsToken(first) && forall i :: 0 <= i < |ts| ==> IsToken(ts[i])
    ensures Fields(first + (" " + Spaced(ts))) == [first] + ts
  {
    hide Spaced, TokenLength;
    var after := " " + Spaced(ts);
    FieldsToken(first, after) by { assert IsSpace(after[0]); }
    FieldsSpaced(ts, []);
    assert after[1..] == Spaced(ts) + [];
  }

  lemma {:induction false} CpuIsToken()
    ensures IsToken("cpu")
  {
  }

  lemma {:induction false} StatFields(ts: seq<string>, rest: string)
    requires forall i :: 0 <= i < |ts| ==> IsToken(ts[i]) && '\n' !in ts[i]
    ensures Fields(FirstLine("cpu " + Spaced(ts) + "\n" + rest)) == ["cpu"] + ts
  {
    hide Spaced, Fields, FirstLine, IsToken;
    SpacedWithout(ts, '\n');
    FirstLineOf("cpu " + Spaced(ts), rest);
    assert "cpu " + Spaced(ts) == "cpu" + (" " + Spaced(ts));
    FieldsAfter("cpu", ts) by { CpuIsToken(); }
  }

  // Any system line with at least seven values is read back as their sum without
  // idle and iowait.
  lemma {:induction false} SystemTimeRoundTrip(values: seq<u64>, rest: string)
    requires |values| >= 7
    ensures SystemTime(RenderStat(values, rest)) == Some(Busy(values) % TWO_TO_64)
  {
    hide Fields, FirstLine, Spaced, Numbers, BusyFields, Busy;
    var ts := Numbers(values);
    NumbersPlain(values);
    StatFields(ts, rest);
    assert (["cpu"] + ts)[1..] == ts;
    BusyFieldsNumbers(values);
  }

  // A line with too few fields is refused.
  lemma {:induction false} ShortLineRefused(pid: nat, comm: string, fields: seq<string>)
    requires PlainFields(fields) && |fields| < 13
    ensures PidTime(RenderPidStat(pid, comm, fields)).None?
  {
    hide Fields, PidTime, ParseUint, Itoa, Spaced;
    var before := Itoa(pid) + " (" + comm;
    var after := Spaced(fields) + "\n";
    SpacedWithout(fields, ')');
    assert RenderPidStat(pid, comm, fields) == before + [')'] + after;
    AfterName(before, after);
    FieldsSpaced(fields, "\n");
  }

  lemma {:induction false} ShortStatRefused(values: seq<u64>, rest: string)
    requires |values| < 7
    ensures SystemTime(RenderStat(values, rest)).None?
  {
    hide Fields, FirstLine, Spaced, Numbers, BusyFields, Busy;
    NumbersPlain(values);
    StatFields(Numbers(values), rest);
  }

  // So is a first line that is not the one of the whole system.
  lemma {:induction false} OtherLineRefused(first: string, ts: seq<string>, rest: string)
    requires IsToken(first) && '\n' !in first && first != "cpu"
    requires forall i :: 0 <= i < |ts| ==> IsToken(ts[i]) && '\n' !in ts[i]
    ensures SystemTime(first + (" " + Spaced(ts)) + "\n" + rest).None?
  {
    hide Spaced, Fields, FirstLine, BusyFields, IsToken;
    SpacedWithout(ts, '\n');
    FirstLineOf(first + (" " + Spaced(ts)), rest);
    FieldsAfter(first, ts);
  }

  // Reading both files gives the busy time of the process as that of the process
  // and the busy time of the system as the total; without one of them there is
  // nothing.
  lemma {:induction false} CpuTimesRoundTrip(pid: nat, comm: string, fields: seq<string>, utime: u64, stime: u64,
      values: seq<u64>, rest: string)
    requires PlainFields(fields) && |fields| >= 13 && fields[11] == Itoa(utime) && fields[12] == Itoa(stime)
    requires |values| >= 7
    ensures var pidStat, stat := Some(RenderPidStat(pid, comm, fields)), Some(RenderStat(values, rest));
      && CpuTimesOf(pidStat, stat) == Some(CpuTimes(Add64(utime, stime), Busy(values) % TWO_TO_64))
      && CpuTimesOf(pidStat, None) == CpuTimesOf(None, stat) == None
  {
    hide PidTime, SystemTime, RenderPidStat, RenderStat;
    PidTimeRoundTrip(pid, comm, fields, utime, stime);
    SystemTimeRoundTrip(values, rest);
  }

  lemma {:induction false} BusyUpdate(values: seq<u64>, i: nat, v: u64)
    requires i < |values|
    ensures Busy(values[i := v]) == Busy(values) + if i == 3 || i == 4 then 0 else v - values[i]
  {
    var n := |values| - 1;
    if i == n {
      assert values[i := v][..n] == values[..n];
    } else {
      assert values[i := v][..n] == values[..n][i := v];
      BusyUpdate(values[..n], i, v);
    }
  }

  // The total depends on every listed value but idle and iowait: changing one
  // value changes it exactly when it is none of those two.
  lemma {:induction false} DependsOnAllButIdle(values: seq<u64>, i: nat, v: u64, rest: string)
    requires |values| >= 7 && i < |values| && v != values[i]
    ensures SystemTime(RenderStat(values[i := v], rest)) == SystemTime(RenderStat(values, rest)) <==> i == 3 || i == 4
  {
    SystemTimeRoundTrip(values, rest);
    SystemTimeRoundTrip(values[i := v], rest);
    BusyUpdate(values, i, v);
    if i != 3 && i != 4 {
      ResidueDiffers(Busy(values), Busy(values[i := v]));
    }
  }

  lemma {:induction false} ResidueDiffers(x: nat, y: nat)
    requires x != y && -(TWO_TO_64 as int) < x as int - y as int < TWO_TO_64 as int
    ensures x % TWO_TO_64 != y % TWO_TO_64
  {
    var p, q := x / TWO_TO_64, y / TWO_TO_64;
    assert x as int - y as int == (p as int - q as int) * (TWO_TO_64 as int) + (x % TWO_TO_64) as int - (y % TWO_TO_64) as int;
  }
}
