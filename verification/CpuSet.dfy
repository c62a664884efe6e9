/** CPU lists such as `0-3,6`: the collector's parser and printer, the stricter parser of the
    evidence checks, and the choice of a load-generator set. Text is ASCII. */
module CpuSet {
  import opened Common
  import opened Text

  // ---- White space -------------------------------------------------------------------------------

  predicate IsSpace(c: char) {
    c == ' ' || '\t' <= c <= '\r' || 28 <= c as int <= 31
  }

  function StripLeft(s: string): string {
    if s != "" && IsSpace(s[0]) then StripLeft(s[1..]) else s
  }

  function StripRight(s: string): string {
    if s != "" && IsSpace(s[|s| - 1]) then StripRight(s[..|s| - 1]) else s
  }

  function Strip(s: string): string {
    StripRight(StripLeft(s))
  }

  predicate AllSpace(s: string) {
    forall i :: 0 <= i < |s| ==> IsSpace(s[i])
  }

  lemma {:induction false} StripLeftPadded(before: string, s: string)
    requires AllSpace(before)
    ensures StripLeft(before + s) == StripLeft(s)
  {
    if before == "" {
      assert before + s == s;
    } else {
      assert (before + s)[1..] == before[1..] + s;
      StripLeftPadded(before[1..], s);
    }
  }

  lemma {:induction false} StripRightPadded(s: string, after: string)
    requires AllSpace(after)
    ensures StripRight(s + after) == StripRight(s)
  {
    if after == "" {
      assert s + after == s;
    } else {
      var n := |after| - 1;
      assert (s + after)[..|s + after| - 1] == s + after[..n];
      StripRightPadded(s, after[..n]);
    }
  }

  /** White space on the right does not matter to the left. */
  lemma {:induction false} StripLeftBefore(s: string, after: string)
    requires AllSpace(after)
    ensures StripLeft(s + after) == StripLeft(s) + after || StripLeft(s) == StripLeft(s + after) == ""
  {
    if s == "" {
      StripLeftPadded(after, "");
      assert after + "" == after && s + after == after;
    } else if IsSpace(s[0]) {
      assert (s + after)[1..] == s[1..] + after;
      StripLeftBefore(s[1..], after);
    }
  }

  /** White space around a text is stripped whatever the text is. */
  lemma {:induction false} StripPadded(before: string, s: string, after: string)
    requires AllSpace(before) && AllSpace(after)
    ensures Strip(before + s + after) == Strip(s)
  {
    assert before + s + after == before + (s + after);
    StripLeftPadded(before, s + after);
    StripLeftBefore(s, after);
    StripRightPadded(StripLeft(s), after);
  }

  // ---- One segment -------------------------------------------------------------------------------

  datatype CpuError = EmptySegment | InvalidRange | ReversedRange | InvalidCpu | Overlap | NeedsService
                    | NoAffinitySupport | NoCpuLeft

  function Interval(first: nat, last: nat): (r: set<nat>)
    ensures forall x :: x in r <==> first <= x <= last
    decreases last - first
  {
    if first > last then {} else {first} + Interval(first + 1, last)
  }

  function ParseSegment(part: string): Result<set<nat>, CpuError> {
    if part == "" then Err(EmptySegment)
    else if '-' in part then
      var bounds := Split(part, '-');
      if |bounds| != 2 || !IsDigits(bounds[0]) || !IsDigits(bounds[1]) then Err(InvalidRange)
      else
        var first, last := ParseNat(bounds[0]), ParseNat(bounds[1]);
        if first > last then Err(ReversedRange) else Ok(Interval(first, last))
    else if IsDigits(part) then Ok({ParseNat(part)})
    else Err(InvalidCpu)
  }

  /** What a segment means: a number, or two numbers in order around one hyphen, and nothing else. */
  lemma {:induction false} SegmentExact(part: string, cpus: set<nat>)
    ensures ParseSegment(part) == Ok(cpus) <==>
      || (IsDigits(part) && cpus == {ParseNat(part)})
      || (exists a, b :: IsDigits(a) && IsDigits(b) && part == a + "-" + b && ParseNat(a) <= ParseNat(b) &&
            cpus == Interval(ParseNat(a), ParseNat(b)))
  {
    if ParseSegment(part) == Ok(cpus) && '-' in part {
      var bounds := Split(part, '-');
      JoinSplit(part, '-');
      assert Join(bounds[1..], '-') == bounds[1];
      assert part == bounds[0] + "-" + bounds[1];
    }
    forall a, b | IsDigits(a) && IsDigits(b) && part == a + "-" + b ensures '-' in part && Split(part, '-') == [a, b] {
      assert part == a + ['-'] + b && part[|a|] == '-';
      SplitOnce(a, b, '-');
      SplitNone(b, '-');
    }
  }

  /** The union of the segments; the first segment that does not parse decides the error. */
  function ParseSegments(parts: seq<string>): Result<set<nat>, CpuError> {
    if parts == [] then Ok({})
    else
      var before := ParseSegments(parts[..|parts| - 1]);
      if before.Err? then before
      else
        var last := ParseSegment(parts[|parts| - 1]);
        if last.Err? then last else Ok(before.value + last.value)
  }

  function Stripped(parts: seq<string>): (r: seq<string>)
    ensures |r| == |parts|
  {
    seq(|parts|, i requires 0 <= i < |parts| => Strip(parts[i]))
  }

  // ---- The two parsers ---------------------------------------------------------------------------

  function CollectorParse(value: string): Result<set<nat>, CpuError> {
    ParseSegments(Stripped(Split(value, ',')))
  }

  method ParseCpuSet(value: string) returns (r: Result<set<nat>, CpuError>)
    ensures r == CollectorParse(value)
  {
    var cpus: set<nat> := {};
    var raw := Split(value, ',');
    ghost var parts := Stripped(raw);
    for i := 0 to |raw|
      invariant ParseSegments(parts[..i]) == Ok(cpus)
    {
      var part := Strip(raw[i]);
      StepSegments(parts, i);
      if part == "" {
        FirstError(parts, i + 1);
        return Err(EmptySegment);
      }
      if '-' in part {
        var bounds := Split(part, '-');
        if |bounds| != 2 || !IsDigits(bounds[0]) || !IsDigits(bounds[1]) {
          FirstError(parts, i + 1);
          return Err(InvalidRange);
        }
        var first, last := ParseNat(bounds[0]), ParseNat(bounds[1]);
        if first > last {
          FirstError(parts, i + 1);
          return Err(ReversedRange);
        }
        cpus := cpus + Interval(first, last);
      } else if IsDigits(part) {
        cpus := cpus + {ParseNat(part)};
      } else {
        FirstError(parts, i + 1);
        return Err(InvalidCpu);
      }
    }
    assert parts[..|raw|] == parts;
    return Ok(cpus);
  }

  lemma {:induction false} StepSegments(parts: seq<string>, i: nat)
    requires i < |parts|
    ensures ParseSegments(parts[..i + 1]) ==
            var before := ParseSegments(parts[..i]);
            if before.Err? then before
            else var last := ParseSegment(parts[i]);
                 if last.Err? then last else Ok(before.value + last.value)
  {
    assert parts[..i + 1][..i] == parts[..i];
  }

  lemma {:induction false} FirstError(parts: seq<string>, i: nat)
    requires i <= |parts| && ParseSegments(parts[..i]).Err?
    ensures ParseSegments(parts) == ParseSegments(parts[..i])
    decreases |parts| - i
  {
    if i == |parts| {
      assert parts[..i] == parts;
    } else {
      StepSegments(parts, i);
      FirstError(parts, i + 1);
    }
  }

  /** The evidence parser: no stripping, and the empty set for anything it does not accept. */
  function EvidenceParse(value: string): set<nat> {
    if value == "" then {}
    else
      var r := ParseSegments(Split(value, ','));
      if r.Err? then {} else r.value
  }

  method ParseEvidenceCpuSet(value: string) returns (cpus: set<nat>)
    ensures cpus == EvidenceParse(value)
  {
    cpus := {};
    if value == "" {
      return;
    }
    var parts := Split(value, ',');
    for i := 0 to |parts|
      invariant ParseSegments(parts[..i]) == Ok(cpus)
    {
      StepSegments(parts, i);
      var item := parts[i];
      if item == "" {
        FirstError(parts, i + 1);
        return {};
      }
      if '-' in item {
        var bounds := Split(item, '-');
        if |bounds| != 2 || !IsDigits(bounds[0]) || !IsDigits(bounds[1]) {
          FirstError(parts, i + 1);
          return {};
        }
        var start, end := ParseNat(bounds[0]), ParseNat(bounds[1]);
        if end < start {
          FirstError(parts, i + 1);
          return {};
        }
        cpus := cpus + Interval(start, end);
      } else if IsDigits(item) {
        cpus := cpus + {ParseNat(item)};
      } else {
        FirstError(parts, i + 1);
        return {};
      }
    }
    assert parts[..|parts|] == parts;
  }

  /** The segments with white space around each of them. */
  function Padded(before: seq<string>, parts: seq<string>, after: seq<string>): (r: seq<string>)
    requires |before| == |parts| == |after|
    ensures |r| == |parts|
  {
    seq(|parts|, i requires 0 <= i < |parts| => before[i] + parts[i] + after[i])
  }

  /** White space around the segments of a list changes nothing. */
  lemma {:induction false} SpaceIgnored(before: seq<string>, parts: seq<string>, after: seq<string>)
    requires |before| == |parts| == |after| && parts != [] && Free(parts, ',')
    requires forall i :: 0 <= i < |parts| ==> AllSpace(before[i]) && AllSpace(after[i])
    ensures CollectorParse(Join(Padded(before, parts, after), ',')) == CollectorParse(Join(parts, ','))
    ensures CollectorParse(Join(parts, ',')) == ParseSegments(Stripped(parts))
  {
    var padded := Padded(before, parts, after);
    forall i | 0 <= i < |parts| ensures Strip(padded[i]) == Strip(parts[i]) && ',' !in padded[i] {
      StripPadded(before[i], parts[i], after[i]);
    }
    SplitJoin(parts, ',');
    SplitJoin(padded, ',');
    assert Stripped(padded) == Stripped(parts);
  }

  // ---- Agreement of the parsers --------------------------------------------------------------------

  lemma {:induction false} StripNothing(s: string)
    requires s != "" && !IsSpace(s[0]) && !IsSpace(s[|s| - 1])
    ensures Strip(s) == s
  {
  }

  /** A segment that parses selects at least one CPU, and begins and ends with a digit. */
  lemma {:induction false} SegmentClean(part: string)
    requires ParseSegment(part).Ok?
    ensures Strip(part) == part && ParseSegment(part).value != {}
  {
    if '-' in part {
      var bounds := Split(part, '-');
      JoinSplit(part, '-');
      assert Join(bounds[1..], '-') == bounds[1];
      assert part == bounds[0] + ['-'] + bounds[1];
      assert part[0] == bounds[0][0] && part[|part| - 1] == bounds[1][|bounds[1]| - 1];
      assert ParseNat(bounds[0]) in ParseSegment(part).value;
    } else {
      assert ParseNat(part) in ParseSegment(part).value;
    }
    StripNothing(part);
  }

  lemma {:induction false} SegmentsClean(parts: seq<string>)
    requires ParseSegments(parts).Ok?
    ensures Stripped(parts) == parts
    ensures parts != [] ==> ParseSegments(parts).value != {}
  {
    if parts != [] {
      var before := parts[..|parts| - 1];
      SegmentsClean(before);
      SegmentClean(parts[|parts| - 1]);
      assert forall i :: 0 <= i < |before| ==> Stripped(before)[i] == Strip(parts[i]) == parts[i];
    }
  }

  /** Whatever the evidence parser accepts means the same set to the collector; and it accepts
      exactly what the collector accepts without having to strip anything. */
  lemma {:induction false} ParsersAgree(value: string)
    ensures EvidenceParse(value) != {} <==>
            CollectorParse(value).Ok? && Stripped(Split(value, ',')) == Split(value, ',')
    ensures EvidenceParse(value) != {} ==> CollectorParse(value) == Ok(EvidenceParse(value))
  {
    var parts := Split(value, ',');
    if value == "" {
      assert parts == [""] && Stripped(parts) == [""];
      StepSegments([""], 0);
      assert [""][..1] == [""];
    } else if ParseSegments(parts).Ok? {
      SegmentsClean(parts);
    }
  }

  // ---- Printing ------------------------------------------------------------------------------------

  datatype Range = Range(lo: nat, hi: nat)

  function RangeText(r: Range): string {
    if r.lo == r.hi then Decimal(r.lo) else Decimal(r.lo) + "-" + Decimal(r.hi)
  }

  function Texts(rs: seq<Range>): (ts: seq<string>)
    ensures |ts| == |rs|
  {
    seq(|rs|, i requires 0 <= i < |rs| => RangeText(rs[i]))
  }

  /** The runs of consecutive numbers in `start..previous` followed by `rest`. */
  function Runs(start: nat, previous: nat, rest: seq<nat>): (rs: seq<Range>)
    ensures rs != []
    decreases rest
  {
    if rest == [] then [Range(start, previous)]
    else if rest[0] == previous + 1 then Runs(start, rest[0], rest[1..])
    else [Range(start, previous)] + Runs(rest[0], rest[0], rest[1..])
  }

  function Ranges(ordered: seq<nat>): seq<Range>
    requires ordered != []
  {
    Runs(ordered[0], ordered[0], ordered[1..])
  }

  function Format(ordered: seq<nat>): string
    requires ordered != []
  {
    Join(Texts(Ranges(ordered)), ',')
  }

  // ---- The printed ranges --------------------------------------------------------------------------

  /** Nonempty ranges in increasing order with a gap between neighbours, so that none can be widened
      or merged. */
  predicate Canonical(rs: seq<Range>) {
    && (forall i :: 0 <= i < |rs| ==> rs[i].lo <= rs[i].hi)
    && forall i, j :: 0 <= i < j < |rs| ==> rs[i].hi + 1 < rs[j].lo
  }

  function Union(rs: seq<Range>): set<nat> {
    if rs == [] then {} else Interval(rs[0].lo, rs[0].hi) + Union(rs[1..])
  }

  lemma {:induction false} IncreasingTail(previous: nat, rest: seq<nat>)
    requires Increasing([previous] + rest) && rest != []
    ensures previous < rest[0] && Increasing([rest[0]] + rest[1..])
  {
    var all := [previous] + rest;
    assert all[0] == previous && all[1] == rest[0];
    assert [rest[0]] + rest[1..] == rest;
    assert forall k :: 0 <= k < |rest| ==> rest[k] == all[k + 1];
  }

  lemma {:induction false} RunsCanonical(start: nat, previous: nat, rest: seq<nat>)
    requires start <= previous && Increasing([previous] + rest)
    ensures Canonical(Runs(start, previous, rest)) && Runs(start, previous, rest)[0].lo == start
    decreases rest
  {
    if rest != [] {
      var next := rest[0];
      IncreasingTail(previous, rest);
      if next == previous + 1 {
        RunsCanonical(start, next, rest[1..]);
      } else {
        RunsCanonical(next, next, rest[1..]);
        var more, all := Runs(next, next, rest[1..]), Runs(start, previous, rest);
        forall j | 1 <= j < |all| ensures previous + 1 < all[j].lo {
          assert all[j] == more[j - 1];
          assert j > 1 ==> more[0].hi + 1 < more[j - 1].lo;
        }
      }
    }
  }

  lemma {:induction false} RunsCover(start: nat, previous: nat, rest: seq<nat>)
    requires start <= previous && Increasing([previous] + rest)
    ensures Union(Runs(start, previous, rest)) == Interval(start, previous) + Elements(rest)
    decreases rest
  {
    if rest == [] {
      assert Union(Runs(start, previous, rest)) == Interval(start, previous) + {};
    } else {
      var next := rest[0];
      IncreasingTail(previous, rest);
      assert Elements(rest) == {next} + Elements(rest[1..]);
      if next == previous + 1 {
        RunsCover(start, next, rest[1..]);
      } else {
        RunsCover(next, next, rest[1..]);
        assert Runs(start, previous, rest)[1..] == Runs(next, next, rest[1..]);
        assert Interval(next, next) == {next};
      }
    }
  }

  lemma {:induction false} DecimalClean(n: nat, c: char)
    requires !IsDigit(c)
    ensures c !in Decimal(n)
  {
  }

  lemma {:induction false} RangeParses(r: Range)
    requires r.lo <= r.hi
    ensures ParseSegment(RangeText(r)) == Ok(Interval(r.lo, r.hi))
    ensures ',' !in RangeText(r)
  {
    var lo, hi := Decimal(r.lo), Decimal(r.hi);
    DecimalRoundTrip(r.lo);
    DecimalRoundTrip(r.hi);
    DecimalClean(r.lo, '-');
    DecimalClean(r.lo, ',');
    DecimalClean(r.hi, '-');
    DecimalClean(r.hi, ',');
    if r.lo == r.hi {
      assert Interval(r.lo, r.hi) == {r.lo};
    } else {
      assert lo + "-" + hi == lo + ['-'] + hi;
      SplitOnce(lo, hi, '-');
      SplitNone(hi, '-');
      assert (lo + ['-'] + hi)[|lo|] == '-';
    }
  }

  lemma {:induction false} TextsParse(rs: seq<Range>)
    requires forall i :: 0 <= i < |rs| ==> rs[i].lo <= rs[i].hi
    ensures ParseSegments(Texts(rs)) == Ok(Union(rs))
    ensures Free(Texts(rs), ',')
  {
    if rs == [] {
    } else {
      var before, last := rs[..|rs| - 1], rs[|rs| - 1];
      TextsParse(before);
      RangeParses(last);
      assert Texts(rs)[..|rs| - 1] == Texts(before);
      assert rs == before + [last];
      UnionAppend(before, last);
      forall i | 0 <= i < |rs| ensures ',' !in Texts(rs)[i] {
        if i < |before| { assert Texts(rs)[i] == Texts(before)[i]; }
      }
    }
  }

  lemma {:induction false} UnionAppend(rs: seq<Range>, r: Range)
    ensures Union(rs + [r]) == Union(rs) + Interval(r.lo, r.hi)
  {
    if rs == [] {
      assert rs + [r] == [r] && [r][1..] == [];
    } else {
      assert (rs + [r])[1..] == rs[1..] + [r];
      UnionAppend(rs[1..], r);
    }
  }

  /** Printing a nonempty set gives canonical ranges that cover it, and both parsers read the text
      back as the same set. */
  lemma {:induction false} FormatRoundTrip(ordered: seq<nat>)
    requires Increasing(ordered) && ordered != []
    ensures Canonical(Ranges(ordered)) && Union(Ranges(ordered)) == Elements(ordered)
    ensures CollectorParse(Format(ordered)) == Ok(Elements(ordered))
    ensures EvidenceParse(Format(ordered)) == Elements(ordered)
  {
    var rs := Ranges(ordered);
    assert [ordered[0]] + ordered[1..] == ordered;
    RunsCanonical(ordered[0], ordered[0], ordered[1..]);
    RunsCover(ordered[0], ordered[0], ordered[1..]);
    assert Interval(ordered[0], ordered[0]) + Elements(ordered[1..]) == Elements(ordered);
    TextsParse(rs);
    SplitJoin(Texts(rs), ',');
    SegmentsClean(Texts(rs));
    ParsersAgree(Format(ordered));
  }

  /** The text lists maximal ranges that cover exactly the set, and both parsers read it back. */
  method FormatCpuSet(cpus: set<nat>) returns (text: string)
    requires cpus != {}
    ensures exists rs :: Canonical(rs) && Union(rs) == cpus && text == Join(Texts(rs), ',')
    ensures CollectorParse(text) == Ok(cpus) && EvidenceParse(text) == cpus
  {
    var sorted := Sorted(cpus);
    assert Elements([]) == {};
    var ranges: seq<string> := [];
    var start, previous := sorted[0], sorted[0];
    for i := 1 to |sorted|
      invariant Texts(Ranges(sorted)) == ranges + Texts(Runs(start, previous, sorted[i..]))
    {
      var cpu := sorted[i];
      assert sorted[i..][1..] == sorted[i + 1..];
      if cpu == previous + 1 {
        previous := cpu;
      } else {
        assert Texts(Runs(start, previous, sorted[i..])) ==
               [RangeText(Range(start, previous))] + Texts(Runs(cpu, cpu, sorted[i + 1..]));
        ranges := ranges + [RangeText(Range(start, previous))];
        start, previous := cpu, cpu;
      }
    }
    assert Texts(Runs(start, previous, [])) == [RangeText(Range(start, previous))];
    ranges := ranges + [if start == previous then Decimal(start) else Decimal(start) + "-" + Decimal(previous)];
    text := Join(ranges, ',');
    FormatRoundTrip(sorted);
  }

  // ---- The load-generator set ----------------------------------------------------------------------

  /** The CPUs of the load generator: those it asks for, which must not be the service's, or all that are
      allowed and not the service's. `affinity` is what the operating system allows, or None where it
      cannot be asked. */
  method ResolveLoadgenCpuSet(service: string, loadgen: string, affinity: Option<set<nat>>)
    returns (r: Result<string, CpuError>)
    ensures service == "" ==> r == if loadgen == "" then Ok("") else Err(NeedsService)
    ensures service != "" && CollectorParse(service).Err? ==> r == Err(CollectorParse(service).error)
    ensures service != "" && CollectorParse(service).Ok? && loadgen != "" ==>
      var own, given := CollectorParse(service).value, CollectorParse(loadgen);
      && (given.Err? ==> r == Err(given.error))
      && (given.Ok? ==> (r == Err(Overlap) <==> own * given.value != {}))
      && (given.Ok? && own * given.value == {} ==> r.Ok? && CollectorParse(r.value) == given)
    ensures service != "" && CollectorParse(service).Ok? && loadgen == "" ==>
      var own := CollectorParse(service).value;
      && (affinity.None? <==> r == Err(NoAffinitySupport))
      && (affinity.Some? && affinity.value <= own <==> r == Err(NoCpuLeft))
      && (affinity.Some? && !(affinity.value <= own) ==>
            r.Ok? && CollectorParse(r.value) == Ok(affinity.value - own))
  {
    if service == "" {
      if loadgen != "" {
        return Err(NeedsService);
      }
      return Ok("");
    }
    var parsed := ParseCpuSet(service);
    if parsed.Err? {
      return Err(parsed.error);
    }
    var chosen: set<nat>;
    if loadgen != "" {
      var given := ParseCpuSet(loadgen);
      if given.Err? {
        return Err(given.error);
      }
      chosen := given.value;
      SegmentsClean(Stripped(Split(loadgen, ',')));
    } else {
      if affinity.None? {
        return Err(NoAffinitySupport);
      }
      chosen := affinity.value - parsed.value;
      if chosen == {} {
        return Err(NoCpuLeft);
      }
    }
    if parsed.value * chosen != {} {
      return Err(Overlap);
    }
    var text := FormatCpuSet(chosen);
    return Ok(text);
  }
}
