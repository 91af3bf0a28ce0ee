// mapRealCores: the topology read from /proc/cpuinfo.
module CpuInfo {
  import opened Options
  import opened Text

  // The virtual core named last, and the map being filled in.
  datatype Scan = Scan(vcore: int, cores: seq<int>)

  function HasPrefix(s: string, p: string): bool { p <= s }

  // The number after the first colon, as SplitN, TrimSpace and Atoi see it.
  function ValueOf(line: string): Option<int>
  {
    var k := Index(line, ':');
    if k == |line| then None else Atoi(TrimSpace(line[k + 1..]))
  }

  function ScanLine(st: Scan, raw: string): (r: Scan)
    ensures |r.cores| == |st.cores|
  {
    var line := TrimSpace(raw);
    if HasPrefix(line, "processor") then
      if ValueOf(line).Some? then st.(vcore := ValueOf(line).value) else st
    else if HasPrefix(line, "core id") then
      if 0 <= st.vcore < |st.cores| && ValueOf(line).Some?
      then st.(cores := st.cores[st.vcore := ValueOf(line).value])
      else st
    else st
  }

  function ScanLines(st: Scan, lines: seq<string>): (r: Scan)
    ensures |r.cores| == |st.cores|
  {
    if lines == [] then st else ScanLine(ScanLines(st, lines[..|lines| - 1]), lines[|lines| - 1])
  }

  function Unknown(total: nat): seq<int> { seq(total, i => -1) }

  function RealCores(total: nat, text: string): seq<int>
  {
    ScanLines(Scan(-1, Unknown(total)), Split(text, '\n')).cores
  }

  // text is what opening and reading the file gave; scanErr that the scanner failed.
  method MapRealCores(totalVCores: nat, text: Option<string>, scanErr: bool) returns (ok: bool, realCoreOf: array<int>)
    ensures fresh(realCoreOf) && realCoreOf.Length == totalVCores
    ensures ok <==> text.Some? && !scanErr
    ensures ok ==> realCoreOf[..] == RealCores(totalVCores, text.value)
  {
    realCoreOf := new int[totalVCores](i => -1);
    assert realCoreOf[..] == Unknown(totalVCores);
    if text.None? {
      return false, realCoreOf;
    }
    var lines := Split(text.value, '\n');
    var vcore := -1;
    for i := 0 to |lines|
      invariant Scan(vcore, realCoreOf[..]) == ScanLines(Scan(-1, Unknown(totalVCores)), lines[..i])
    {
      assert lines[..i + 1][..i] == lines[..i];
      var line := TrimSpace(lines[i]);
      if HasPrefix(line, "processor") {
        var n := ValueOf(line);
        if n.Some? {
          vcore := n.value;
        }
      } else if HasPrefix(line, "core id") {
        if vcore >= 0 && vcore < totalVCores {
          var n := ValueOf(line);
          if n.Some? {
            realCoreOf[vcore] := n.value;
          }
        }
      }
    }
    assert lines[..|lines|] == lines;
    return !scanErr, realCoreOf;
  }

  // ---------- round trip ----------

  // A core's block: other lines, its number, other lines, its core id.
  datatype Block = Block(head: seq<string>, processor: nat, middle: seq<string>, coreId: nat)

  ghost predicate Unrelated(lines: seq<string>)
  {
    forall i :: 0 <= i < |lines| ==>
      var line := TrimSpace(lines[i]);
      '\n' !in lines[i] && ((!HasPrefix(line, "processor") && !HasPrefix(line, "core id")) || ValueOf(line).None?)
  }

  ghost predicate WellFormed(b: Block)
  {
    && Unrelated(b.head) && Unrelated(b.middle)
    && b.processor < 0x8000_0000_0000_0000 && b.coreId < 0x8000_0000_0000_0000
  }

  function ProcessorLine(n: nat): string { "processor\t: " + Itoa(n) }

  function CoreIdLine(n: nat): string { "core id\t\t: " + Itoa(n) }

  function Lines(b: Block): seq<string>
  {
    b.head + [ProcessorLine(b.processor)] + b.middle + [CoreIdLine(b.coreId)]
  }

  function AllLines(blocks: seq<Block>, tail: seq<string>): seq<string>
  {
    if blocks == [] then tail else Lines(blocks[0]) + AllLines(blocks[1..], tail)
  }

  lemma {:induction false} ValueAfterColon(left: string, digits: string, n: int)
    requires ':' !in left && digits != [] && Trimmed(digits) && Atoi(digits) == Some(n)
    ensures ValueOf(left + [':'] + (" " + digits)) == Some(n)
  {
    hide Atoi, TrimSpace;
    var right := " " + digits;
    IndexAt(left, ':', right);
    assert (left + [':'] + right)[|left| + 1..] == right;
    assert right == " " + digits + [];
    TrimPad(" ", digits, []);
  }

  lemma {:induction false} LineValue(key: string, sep: string, n: nat)
    requires ':' !in key + sep && Trimmed(key) && key != [] && n < 0x8000_0000_0000_0000
    ensures var line := key + sep + ": " + Itoa(n);
      TrimSpace(line) == line && ValueOf(line) == Some(n)
  {
    hide Atoi, ValueOf, TrimSpace, Itoa, IsSpace;
    var line := key + sep + ": " + Itoa(n);
    ItoaIsToken(n);
    assert line[0] == key[0] && line[|line| - 1] == Itoa(n)[|Itoa(n)| - 1];
    assert [] + line + [] == line;
    TrimPad([], line, []);
    assert line == (key + sep) + [':'] + (" " + Itoa(n));
    AtoiItoa(n);
    ValueAfterColon(key + sep, Itoa(n), n);
  }

  lemma {:induction false} ProcessorValue(n: nat, st: Scan)
    requires n < 0x8000_0000_0000_0000
    ensures ScanLine(st, ProcessorLine(n)) == st.(vcore := n)
  {
    LineValue("processor", "\t", n);
    assert ProcessorLine(n) == "processor" + "\t" + ": " + Itoa(n);
  }

  lemma {:induction false} CoreIdValue(n: nat, st: Scan)
    requires n < 0x8000_0000_0000_0000
    ensures ScanLine(st, CoreIdLine(n)) ==
            if 0 <= st.vcore < |st.cores| then st.(cores := st.cores[st.vcore := n]) else st
  {
    LineValue("core id", "\t\t", n);
    assert CoreIdLine(n) == "core id" + "\t\t" + ": " + Itoa(n);
    assert CoreIdLine(n)[0] == 'c' && "processor"[0] == 'p';
  }

  lemma {:induction false} ScanUnrelated(st: Scan, lines: seq<string>)
    requires Unrelated(lines)
    ensures ScanLines(st, lines) == st
  {
    if lines != [] { ScanUnrelated(st, lines[..|lines| - 1]); }
  }

  lemma {:induction false} ScanAppend(st: Scan, a: seq<string>, b: seq<string>)
    ensures ScanLines(st, a + b) == ScanLines(ScanLines(st, a), b)
  {
    if b == [] {
      assert a + b == a;
    } else {
      assert (a + b)[..|a + b| - 1] == a + b[..|b| - 1];
      ScanAppend(st, a, b[..|b| - 1]);
    }
  }

  lemma {:induction false} ScanOne(st: Scan, line: string)
    ensures ScanLines(st, [line]) == ScanLine(st, line)
  {
  }

  // A block sets the entry of its processor, if there is one.
  function Enter(cores: seq<int>, b: Block): seq<int>
  {
    if b.processor < |cores| then cores[b.processor := b.coreId] else cores
  }

  lemma {:induction false} ScanBlock(st: Scan, b: Block)
    requires WellFormed(b)
    ensures ScanLines(st, Lines(b)) == Scan(b.processor, Enter(st.cores, b))
  {
    var s1 := st.(vcore := b.processor);
    ScanUnrelated(st, b.head);
    ScanOne(st, ProcessorLine(b.processor));
    ProcessorValue(b.processor, st);
    ScanAppend(st, b.head, [ProcessorLine(b.processor)]);
    ScanUnrelated(s1, b.middle);
    ScanAppend(st, b.head + [ProcessorLine(b.processor)], b.middle);
    ScanOne(s1, CoreIdLine(b.coreId));
    CoreIdValue(b.coreId, s1);
    ScanAppend(st, b.head + [ProcessorLine(b.processor)] + b.middle, [CoreIdLine(b.coreId)]);
  }

  function EnterAll(cores: seq<int>, blocks: seq<Block>): seq<int>
    decreases |blocks|
  {
    if blocks == [] then cores else EnterAll(Enter(cores, blocks[0]), blocks[1..])
  }

  lemma {:induction false} ScanAll(st: Scan, blocks: seq<Block>, tail: seq<string>)
    requires Unrelated(tail) && forall i :: 0 <= i < |blocks| ==> WellFormed(blocks[i])
    ensures ScanLines(st, AllLines(blocks, tail)).cores == EnterAll(st.cores, blocks)
    decreases |blocks|
  {
    if blocks == [] {
      ScanUnrelated(st, tail);
    } else {
      ScanBlock(st, blocks[0]);
      ScanAppend(st, Lines(blocks[0]), AllLines(blocks[1..], tail));
      ScanAll(ScanLines(st, Lines(blocks[0])), blocks[1..], tail);
    }
  }

  // Block i is the last one of its processor.
  ghost predicate IsLast(blocks: seq<Block>, i: int)
  {
    0 <= i < |blocks| && forall j :: i < j < |blocks| ==> blocks[j].processor != blocks[i].processor
  }

  // Entering blocks sets exactly the entries of their processors, the last one of
  // a processor deciding.
  lemma {:induction false} EnteredAt(cores: seq<int>, blocks: seq<Block>)
    ensures |EnterAll(cores, blocks)| == |cores|
    ensures forall i :: IsLast(blocks, i) && blocks[i].processor < |cores| ==>
              EnterAll(cores, blocks)[blocks[i].processor] == blocks[i].coreId
    ensures forall v :: 0 <= v < |cores| && (forall i :: 0 <= i < |blocks| ==> blocks[i].processor != v) ==>
              EnterAll(cores, blocks)[v] == cores[v]
    decreases |blocks|
  {
    if blocks != [] {
      var rest := blocks[1..];
      assert forall i :: 0 <= i < |rest| ==> rest[i] == blocks[i + 1];
      EnteredAt(Enter(cores, blocks[0]), rest);
      forall i | IsLast(blocks, i) && blocks[i].processor < |cores|
        ensures EnterAll(cores, blocks)[blocks[i].processor] == blocks[i].coreId
      {
        if i > 0 { assert rest[i - 1] == blocks[i] && IsLast(rest, i - 1); }
      }
    }
  }

  lemma {:induction false} LinesPlain(blocks: seq<Block>, tail: seq<string>)
    requires Unrelated(tail) && forall i :: 0 <= i < |blocks| ==> WellFormed(blocks[i])
    ensures forall i :: 0 <= i < |AllLines(blocks, tail)| ==> '\n' !in AllLines(blocks, tail)[i]
    decreases |blocks|
  {
    if blocks != [] {
      LinesPlain(blocks[1..], tail);
      assert '\n' !in ProcessorLine(blocks[0].processor) && '\n' !in CoreIdLine(blocks[0].coreId);
    }
  }

  // Any rendering, with arbitrary unrelated or malformed lines in between, is read
  // back: for every processor in range the core id of its last block, -1 for every
  // other virtual core.
  lemma {:induction false} TopologyRoundTrip(total: nat, blocks: seq<Block>, tail: seq<string>)
    requires Unrelated(tail) && forall i :: 0 <= i < |blocks| ==> WellFormed(blocks[i])
    requires |AllLines(blocks, tail)| > 0
    ensures var cores := RealCores(total, Join(AllLines(blocks, tail), '\n'));
      && |cores| == total
      && (forall i :: IsLast(blocks, i) && blocks[i].processor < total ==> cores[blocks[i].processor] == blocks[i].coreId)
      && (forall v :: 0 <= v < total && (forall i :: 0 <= i < |blocks| ==> blocks[i].processor != v) ==> cores[v] == -1)
  {
    var lines := AllLines(blocks, tail);
    LinesPlain(blocks, tail);
    SplitJoin(lines, '\n');
    ScanAll(Scan(-1, Unknown(total)), blocks, tail);
    EnteredAt(Unknown(total), blocks);
  }
}
