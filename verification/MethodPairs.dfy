// ParseMethodPairs: the -m option, a comma-separated list of module:method.
module MethodPairs {
  import opened Options
  import opened Text

  // An element that is not blank: its module and method, or None if malformed.
  function PairOf(element: string): Option<(string, string)>
  {
    var p := TrimSpace(element);
    var k := Index(p, ':');
    if k == |p| then None
    else
      var name, value := TrimSpace(p[..k]), TrimSpace(p[k + 1..]);
      if name == "" || value == "" then None else Some((name, value))
  }

  predicate Skipped(element: string) { TrimSpace(element) == "" }

  // An element that makes the whole list invalid.
  predicate Bad(element: string) { !Skipped(element) && PairOf(element).None? }

  // In terms of the text alone: an element is bad if it is not blank and lacks a
  // colon, or has nothing but white space on one side of its first one.
  lemma {:induction false} BadMeans(e: string)
    ensures Bad(e) <==>
              var k := Index(e, ':');
              !Blank(e) && (k == |e| || Blank(e[..k]) || Blank(e[k + 1..]))
  {
    hide Blank, IsSpace, TrimSpace;
    var p := TrimSpace(e);
    var before, after := TrimSpaceMeans(e);
    TrimmedAway(e);
    var j, k := Index(p, ':'), Index(e, ':');
    ColonIsNoSpace();
    BlankWithout(before, ':');
    BlankWithout(after, ':');
    IndexInside(before, p, after, ':');
    if j < |p| {
      assert e[..k] == before + p[..j] && e[k + 1..] == p[j + 1..] + after;
      BlankPrefixed(before, p[..j]);
      BlankSuffixed(p[j + 1..], after);
      TrimmedAway(p[..j]);
      TrimmedAway(p[j + 1..]);
    }
  }

  lemma {:induction false} ColonIsNoSpace()
    ensures !IsSpace(':')
  {
  }

  lemma {:induction false} BlankPrefixed(before: string, s: string)
    requires Blank(before)
    ensures Blank(before + s) <==> Blank(s)
  {
    assert forall i :: 0 <= i < |s| ==> (before + s)[|before| + i] == s[i];
  }

  lemma {:induction false} BlankSuffixed(s: string, after: string)
    requires Blank(after)
    ensures Blank(s + after) <==> Blank(s)
  {
    assert forall i :: 0 <= i < |s| ==> (s + after)[i] == s[i];
  }

  lemma {:induction false} IndexInside(before: string, s: string, after: string, c: char)
    requires c !in before && c !in after
    ensures var k := Index(before + s + after, c);
      k == if Index(s, c) < |s| then |before| + Index(s, c) else |before + s + after|
  {
    var t := before + s + after;
    var k := Index(t, c);
    assert forall i :: 0 <= i < |before| ==> t[i] == before[i] && before[i] in before;
    assert forall i :: 0 <= i < |s| ==> t[|before| + i] == s[i];
    assert forall i :: 0 <= i < |after| ==> t[|before| + |s| + i] == after[i] && after[i] in after;
    if Index(s, c) < |s| {
      assert t[|before| + Index(s, c)] == c;
    }
  }

  predicate AnyBad(parts: seq<string>) { exists i :: 0 <= i < |parts| && Bad(parts[i]) }

  // What a list parses to: nothing exactly if some element is bad, otherwise a
  // map in which the last element wins.
  ghost predicate Parses(s: string, r: Option<map<string, string>>)
  {
    var parts := Split(s, ',');
    (r.None? <==> AnyBad(parts)) && (r.Some? ==> LastWins(parts, r.value))
  }

  method ParseMethodPairs(s: string) returns (r: Option<map<string, string>>)
    ensures Parses(s, r)
  {
    var out: map<string, string> := map[];
    var parts := Split(s, ',');
    for i := 0 to |parts|
      invariant forall j :: 0 <= j < i ==> !Bad(parts[j])
      invariant LastWins(parts[..i], out)
    {
      assert parts[..i + 1] == parts[..i] + [parts[i]];
      var p := TrimSpace(parts[i]);
      if p == "" {
        SkippedKeeps(parts[..i], parts[i], out);
        continue;
      }
      if Index(p, ':') == |p| {
        assert Bad(parts[i]) && AnyBad(parts);
        return None;
      }
      var name := TrimSpace(p[..Index(p, ':')]);
      var value := TrimSpace(p[Index(p, ':') + 1..]);
      if name == "" || value == "" {
        assert Bad(parts[i]) && AnyBad(parts);
        return None;
      }
      PairEnters(parts[..i], parts[i], out);
      out := out[name := value];
    }
    assert parts[..|parts|] == parts;
    return Some(out);
  }

  ghost predicate Gives(element: string, name: string)
  {
    !Skipped(element) && PairOf(element).Some? && PairOf(element).value.0 == name
  }

  // m maps a name exactly if some element gives it, and then to the value of the
  // last element that does.
  ghost predicate LastWins(parts: seq<string>, m: map<string, string>)
  {
    && (forall i :: 0 <= i < |parts| && !Skipped(parts[i]) && PairOf(parts[i]).Some? ==> PairOf(parts[i]).value.0 in m)
    && (forall name :: name in m ==> exists i :: IsLast(parts, i, name, m[name]))
  }

  ghost predicate IsLast(parts: seq<string>, i: int, name: string, value: string)
  {
    && 0 <= i < |parts| && !Skipped(parts[i]) && PairOf(parts[i]) == Some((name, value))
    && forall j :: i < j < |parts| ==> !Gives(parts[j], name)
  }

  // An element that gives nothing, or another name, leaves the last one of a name.
  lemma {:induction false} LastKept(parts: seq<string>, part: string, i: int, name: string, value: string)
    requires IsLast(parts, i, name, value) && !Gives(part, name)
    ensures IsLast(parts + [part], i, name, value)
  {
    hide Gives, Skipped, PairOf;
  }

  lemma {:induction false} SkippedKeeps(parts: seq<string>, part: string, m: map<string, string>)
    requires LastWins(parts, m) && Skipped(part)
    ensures LastWins(parts + [part], m)
  {
    hide IsLast, PairOf, Skipped;
    var parts' := parts + [part];
    forall name | name in m ensures exists i :: IsLast(parts', i, name, m[name]) {
      var i :| IsLast(parts, i, name, m[name]);
      LastKept(parts, part, i, name, m[name]);
    }
  }

  lemma {:induction false} PairEnters(parts: seq<string>, part: string, m: map<string, string>)
    requires LastWins(parts, m) && !Skipped(part) && PairOf(part).Some?
    ensures LastWins(parts + [part], m[PairOf(part).value.0 := PairOf(part).value.1])
  {
    var parts' := parts + [part];
    var (key, value) := PairOf(part).value;
    var m' := m[key := value];
    forall name | name in m' ensures exists i :: IsLast(parts', i, name, m'[name]) {
      if name == key {
        assert IsLast(parts', |parts|, name, value);
      } else {
        var i :| IsLast(parts, i, name, m[name]);
        assert IsLast(parts', i, name, m[name]);
      }
    }
  }

  lemma {:induction false} LastWinsWithin(parts: seq<string>, m: map<string, string>, m': map<string, string>, name: string)
    requires LastWins(parts, m) && LastWins(parts, m') && name in m
    ensures name in m' && m[name] == m'[name]
  {
    var i :| IsLast(parts, i, name, m[name]);
    assert PairOf(parts[i]).value.0 in m';
    var j :| IsLast(parts, j, name, m'[name]);
    assert Gives(parts[i], name) && Gives(parts[j], name);
  }

  // LastWins leaves no choice.
  lemma {:induction false} LastWinsUnique(parts: seq<string>, m: map<string, string>, m': map<string, string>)
    requires LastWins(parts, m) && LastWins(parts, m')
    ensures m == m'
  {
    forall name | name in m ensures name in m' && m[name] == m'[name] { LastWinsWithin(parts, m, m', name); }
    forall name | name in m' ensures name in m { LastWinsWithin(parts, m', m, name); }
  }

  // ---------- round trip ----------

  // One element of a list as a user may write it: nothing but white space, or a
  // pair with white space around the names.
  datatype Element = Empty(space: string) | Pair(a: string, name: string, b: string, c: string, value: string, d: string)

  function Render(e: Element): string
  {
    match e
    case Empty(space) => space
    case Pair(a, name, b, c, value, d) => a + name + b + ":" + c + value + d
  }

  ghost predicate WellFormed(e: Element)
  {
    match e
    case Empty(space) => Blank(space)
    case Pair(a, name, b, c, value, d) =>
      && Blank(a) && Blank(b) && Blank(c) && Blank(d)
      && name != "" && Trimmed(name) && ',' !in name && ':' !in name
      && value != "" && Trimmed(value) && ',' !in value
  }

  function RenderAll(es: seq<Element>): (ts: seq<string>)
    ensures |ts| == |es| && forall i :: 0 <= i < |es| ==> ts[i] == Render(es[i])
  {
    if es == [] then [] else RenderAll(es[..|es| - 1]) + [Render(es[|es| - 1])]
  }

  lemma {:induction false} BlankWithout(s: string, c: char)
    requires Blank(s) && !IsSpace(c)
    ensures c !in s
  {
  }

  lemma {:induction false} RenderPlain(e: Element)
    requires WellFormed(e)
    ensures ',' !in Render(e)
  {
    match e
    case Empty(space) => BlankWithout(space, ',');
    case Pair(a, name, b, c, value, d) =>
      BlankWithout(a, ','); BlankWithout(b, ','); BlankWithout(c, ','); BlankWithout(d, ',');
  }

  lemma {:induction false} RenderEmpty(space: string)
    requires Blank(space)
    ensures Skipped(space)
  {
    TrimPad(space, "", "");
    assert space + "" + "" == space;
  }

  // A rendered pair is read back whatever white space surrounds the names.
  lemma {:induction false} RenderPair(e: Element)
    requires WellFormed(e) && e.Pair?
    ensures !Skipped(Render(e)) && PairOf(Render(e)) == Some((e.name, e.value))
  {
    var core := e.name + e.b + ":" + e.c + e.value;
    assert core[0] == e.name[0] && core[|core| - 1] == e.value[|e.value| - 1];
    assert Render(e) == e.a + core + e.d;
    TrimPad(e.a, core, e.d);
    BlankWithout(e.b, ':');
    var left, right := e.name + e.b, e.c + e.value;
    assert core == left + [':'] + right;
    IndexAt(left, ':', right);
    assert core[..|left|] == left && core[|left| + 1..] == right;
    assert left == "" + e.name + e.b && right == e.c + e.value + "";
    TrimPad("", e.name, e.b);
    TrimPad(e.c, e.value, "");
  }

  ghost predicate Lists(es: seq<Element>, m: map<string, string>)
  {
    && (forall i :: 0 <= i < |es| && es[i].Pair? ==> es[i].name in m && m[es[i].name] == es[i].value)
    && (forall name :: name in m ==> exists i :: 0 <= i < |es| && es[i].Pair? && es[i].name == name)
  }

  // Any rendering of a map, with extra white space and empty elements anywhere,
  // parses to that map and to nothing else.
  lemma {:induction false} MethodListRoundTrip(es: seq<Element>, m: map<string, string>, r: Option<map<string, string>>)
    requires |es| > 0 && (forall i :: 0 <= i < |es| ==> WellFormed(es[i])) && Lists(es, m)
    ensures Parses(Join(RenderAll(es), ','), r) <==> r == Some(m)
  {
    hide Bad, Render, WellFormed, Join, Split;
    var ts := RenderAll(es);
    forall i | 0 <= i < |ts| ensures ',' !in ts[i] && !Bad(ts[i]) {
      RenderPlain(es[i]);
      RenderingNotBad(es[i]);
    }
    SplitJoin(ts, ',');
    RenderingsRead(es, m, ts);
    if r.Some? && LastWins(ts, r.value) { LastWinsUnique(ts, m, r.value); }
  }

  lemma {:induction false} LastGiving(ts: seq<string>, name: string, n: nat) returns (i: nat)
    requires n <= |ts| && exists j :: 0 <= j < n && Gives(ts[j], name)
    requires forall j :: n <= j < |ts| ==> !Gives(ts[j], name)
    ensures i < |ts| && Gives(ts[i], name) && forall j :: i < j < |ts| ==> !Gives(ts[j], name)
  {
    hide Gives;
    if Gives(ts[n - 1], name) { i := n - 1; } else { i := LastGiving(ts, name, n - 1); }
  }

  lemma {:induction false} RenderingRead(e: Element)
    requires WellFormed(e)
    ensures e.Pair? <==> !Skipped(Render(e))
    ensures e.Pair? ==> PairOf(Render(e)) == Some((e.name, e.value))
  {
    if e.Pair? { RenderPair(e); } else { RenderEmpty(e.space); }
  }

  lemma {:induction false} RenderingNotBad(e: Element)
    requires WellFormed(e)
    ensures !Bad(Render(e))
  {
    RenderingRead(e);
  }

  lemma {:induction false} RenderingsRead(es: seq<Element>, m: map<string, string>, ts: seq<string>)
    requires (forall i :: 0 <= i < |es| ==> WellFormed(es[i])) && Lists(es, m) && ts == RenderAll(es)
    ensures LastWins(ts, m)
  {
    hide Render, WellFormed, PairOf, Skipped;
    forall i | 0 <= i < |ts|
      ensures es[i].Pair? <==> !Skipped(ts[i])
      ensures es[i].Pair? ==> PairOf(ts[i]) == Some((es[i].name, es[i].value))
    {
      RenderingRead(es[i]);
    }
    forall name | name in m ensures exists i :: IsLast(ts, i, name, m[name]) {
      LastRead(es, m, ts, name);
    }
  }

  lemma {:induction false} LastRead(es: seq<Element>, m: map<string, string>, ts: seq<string>, name: string)
    requires Lists(es, m) && |ts| == |es| && name in m
    requires forall i :: 0 <= i < |es| ==> (es[i].Pair? <==> !Skipped(ts[i]))
    requires forall i :: 0 <= i < |es| && es[i].Pair? ==> PairOf(ts[i]) == Some((es[i].name, es[i].value))
    ensures exists i :: IsLast(ts, i, name, m[name])
  {
    hide PairOf, Skipped;
    var k :| 0 <= k < |es| && es[k].Pair? && es[k].name == name;
    assert Gives(ts[k], name);
    var i := LastGiving(ts, name, |ts|);
    assert IsLast(ts, i, name, m[name]);
  }
}
