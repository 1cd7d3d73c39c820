/** The labelled metrics store: series keyed by their joined label values. */
module Metrics {
  import opened Text

  /** Upper edges of the histogram buckets, in seconds. */
  const EDGES := [0.05, 0.1, 0.25, 0.5, 1.0, 2.0, 4.0, 8.0, 16.0]

  const NUL := 0 as char

  datatype Kind = Gauge | Counter | Histogram

  datatype Series = Series(labels: seq<string>, value: real, count: nat, sum: real, buckets: seq<nat>)

  datatype Call =
    | Set(v: real, labels: seq<string>)
    | Add(v: real, labels: seq<string>)
    | Observe(v: real, labels: seq<string>)

  function KeyOf(labels: seq<string>): string {
    Join(labels, NUL)
  }

  function NewSeries(labels: seq<string>): Series {
    Series(labels, 0.0, 0, 0.0, seq(|EDGES|, _ => 0))
  }

  /** Bucket counts after one more observation: bucket i counts it iff v <= edge i. */
  function Bumped(buckets: seq<nat>, v: real): (r: seq<nat>)
    requires |buckets| == |EDGES|
    ensures |r| == |EDGES|
  {
    seq(|EDGES|, i requires 0 <= i < |EDGES| => buckets[i] + if v <= EDGES[i] then 1 else 0)
  }

  /** The effect of one call on the series it addresses. */
  function Effect(s: Series, c: Call): (r: Series)
    requires |s.buckets| == |EDGES|
    ensures |r.buckets| == |EDGES|
  {
    match c
    case Set(v, _) => s.(value := v)
    case Add(v, _) => s.(value := s.value + v)
    case Observe(v, _) => s.(count := s.count + 1, sum := s.sum + v, buckets := Bumped(s.buckets, v))
  }

  ghost predicate WellFormed(store: map<string, Series>) {
    forall k :: k in store ==> |store[k].buckets| == |EDGES|
  }

  /** The series under these labels, or a fresh one. */
  function At(store: map<string, Series>, labels: seq<string>): Series {
    var k := KeyOf(labels);
    if k in store then store[k] else NewSeries(labels)
  }

  /** The effect of one call on the whole store, addressed by key. */
  function Stored(store: map<string, Series>, c: Call): (r: map<string, Series>)
    requires WellFormed(store)
    ensures WellFormed(r)
  {
    store[KeyOf(c.labels) := Effect(At(store, c.labels), c)]
  }

  function Replay(calls: seq<Call>): (r: map<string, Series>)
    ensures WellFormed(r)
  {
    if calls == [] then map[] else Stored(Replay(calls[..|calls| - 1]), calls[|calls| - 1])
  }

  class Metric {
    const kind: Kind
    const labelNames: seq<string>
    var series: map<string, Series>
    /** Every mutating call so far, oldest first. */
    ghost var calls: seq<Call>

    ghost predicate Valid()
      reads this
    {
      series == Replay(calls) && forall i :: 0 <= i < |calls| ==> |calls[i].labels| == |labelNames|
    }

    constructor (kind: Kind, labelNames: seq<string>)
      ensures Valid() && calls == [] && this.kind == kind && this.labelNames == labelNames
    {
      this.kind, this.labelNames, series, calls := kind, labelNames, map[], [];
    }

    /** Finds or creates the series; the wrong number of values is a programming error. */
    method StateFor(labelValues: seq<string>) returns (key: string, s: Series)
      requires |labelValues| == |labelNames|
      modifies this`series
      ensures key == KeyOf(labelValues) && s == At(old(series), labelValues)
      ensures series == old(series)[key := s]
    {
      key := Join(labelValues, NUL);
      if key !in series {
        series := series[key := Series(labelValues, 0.0, 0, 0.0, seq(|EDGES|, _ => 0))];
      }
      s := series[key];
    }

    method SetValue(v: real, labelValues: seq<string>)
      requires Valid() && |labelValues| == |labelNames|
      modifies this
      ensures Valid() && calls == old(calls) + [Set(v, labelValues)]
    {
      var key, s := StateFor(labelValues);
      series := series[key := s.(value := v)];
      Recorded(calls, Set(v, labelValues));
      calls := calls + [Set(v, labelValues)];
    }

    method AddValue(delta: real, labelValues: seq<string>)
      requires Valid() && |labelValues| == |labelNames|
      modifies this
      ensures Valid() && calls == old(calls) + [Add(delta, labelValues)]
    {
      var key, s := StateFor(labelValues);
      series := series[key := s.(value := s.value + delta)];
      Recorded(calls, Add(delta, labelValues));
      calls := calls + [Add(delta, labelValues)];
    }

    method ObserveValue(v: real, labelValues: seq<string>)
      requires Valid() && |labelValues| == |labelNames|
      modifies this
      ensures Valid() && calls == old(calls) + [Observe(v, labelValues)]
    {
      Recorded(calls, Observe(v, labelValues));
      var key, s := StateFor(labelValues);
      var buckets := CountIn(s.buckets, v);
      series := series[key := s.(count := s.count + 1, sum := s.sum + v, buckets := buckets)];
      calls := calls + [Observe(v, labelValues)];
    }

    /** The bucket loop of an observation. */
    static method CountIn(was: seq<nat>, v: real) returns (buckets: seq<nat>)
      requires |was| == |EDGES|
      ensures buckets == Bumped(was, v)
    {
      buckets := was;
      for i := 0 to |EDGES|
        invariant |buckets| == |EDGES|
        invariant forall j :: 0 <= j < |EDGES| ==> buckets[j] == if j < i then Bumped(was, v)[j] else was[j]
      {
        if v <= EDGES[i] {
          buckets := buckets[i := buckets[i] + 1];
        }
      }
    }

    /** The value, or the observation count of a histogram. When these labels contain
        no NUL it is computed from the calls with these very labels alone. */
    method Value(labelValues: seq<string>) returns (v: real)
      requires Valid()
      ensures |labelValues| == |labelNames| && Separable(calls, labelValues) ==>
        var own := Own(calls, labelValues);
        v == if own == [] then 0.0 else if kind.Histogram? then Folded(own, labelValues).count as real
          else Folded(own, labelValues).value
    {
      var key := Join(labelValues, NUL);
      if |labelValues| == |labelNames| && Separable(calls, labelValues) {
        SeriesIsOwnFold(calls, labelValues);
      }
      if key !in series { return 0.0; }
      if kind.Histogram? { return series[key].count as real; }
      return series[key].value;
    }
  }

  lemma ReplaySnoc(calls: seq<Call>, c: Call)
    ensures Replay(calls + [c]) == Stored(Replay(calls), c)
  {
    assert (calls + [c])[..|calls|] == calls;
  }

  /** Writing the series back records exactly the call. */
  lemma Recorded(calls: seq<Call>, c: Call)
    ensures var s := At(Replay(calls), c.labels);
      |s.buckets| == |EDGES| &&
        Replay(calls)[KeyOf(c.labels) := s][KeyOf(c.labels) := Effect(s, c)] == Replay(calls + [c])
  {
    ReplaySnoc(calls, c);
  }

  /** The calls made with exactly these label values. */
  function Own(calls: seq<Call>, labels: seq<string>): seq<Call> {
    if calls == [] then []
    else Own(calls[..|calls| - 1], labels) + if calls[|calls| - 1].labels == labels then [calls[|calls| - 1]] else []
  }

  /** A series on its own: the effects of its calls from a fresh start. */
  function Folded(own: seq<Call>, labels: seq<string>): (r: Series)
    ensures |r.buckets| == |EDGES|
  {
    if own == [] then NewSeries(labels) else Effect(Folded(own[..|own| - 1], labels), own[|own| - 1])
  }

  /** The queried labels are NUL-free; nothing is asked of the labels of other calls. */
  ghost predicate Separable(calls: seq<Call>, labels: seq<string>) {
    && (forall i :: 0 <= i < |labels| ==> NUL !in labels[i])
    && (forall k :: 0 <= k < |calls| ==> |calls[k].labels| == |labels|)
  }

  /** No call leaks into another series: what is stored under a label tuple is the
      fold of the calls with that tuple. */
  lemma {:induction false} SeriesIsOwnFold(calls: seq<Call>, labels: seq<string>)
    requires Separable(calls, labels)
    ensures KeyOf(labels) in Replay(calls) <==> Own(calls, labels) != []
    ensures KeyOf(labels) in Replay(calls) ==> Replay(calls)[KeyOf(labels)] == Folded(Own(calls, labels), labels)
  {
    if calls != [] {
      var front, last := calls[..|calls| - 1], calls[|calls| - 1];
      SeriesIsOwnFold(front, labels);
      assert calls == front + [last];
      ReplaySnoc(front, last);
      if last.labels == labels {
        assert Own(calls, labels)[..|Own(calls, labels)| - 1] == Own(front, labels);
      } else {
        assert Own(calls, labels) == Own(front, labels);
        if KeyOf(last.labels) == KeyOf(labels) { JoinInjective(labels, last.labels, NUL); }
      }
    }
  }

  ghost predicate SharesKey(labels: seq<string>, other: seq<string>) {
    |other| == |labels| && other != labels && KeyOf(other) == KeyOf(labels)
  }

  /** A label tuple can be confused with another of its length exactly when it has at
      least two labels and one of them contains NUL. */
  lemma KeyIsSharedIff(labels: seq<string>)
    ensures (exists other :: SharesKey(labels, other)) <==>
      |labels| >= 2 && exists i :: 0 <= i < |labels| && NUL in labels[i]
  {
    if exists other :: SharesKey(labels, other) {
      var other :| SharesKey(labels, other);
      if forall i :: 0 <= i < |labels| ==> NUL !in labels[i] { JoinInjective(labels, other, NUL); }
    }
    if |labels| >= 2 && exists i :: 0 <= i < |labels| && NUL in labels[i] {
      var i :| 0 <= i < |labels| && NUL in labels[i];
      var k :| 0 <= k < |labels[i]| && labels[i][k] == NUL;
      var a, b := labels[i][..k], labels[i][k + 1..];
      assert labels[i] == a + [NUL] + b;
      if i + 1 < |labels| {
        MovesRight(labels[..i], a, b, labels[i + 1], labels[i + 2..]);
        assert labels == labels[..i] + [labels[i], labels[i + 1]] + labels[i + 2..];
      } else {
        MovesLeft(labels[..i - 1], labels[i - 1], a, b);
        assert labels == labels[..i - 1] + [labels[i - 1], labels[i]];
      }
    }
  }

  lemma MovesRight(pre: seq<string>, a: string, b: string, c: string, post: seq<string>)
    ensures SharesKey(pre + [a + [NUL] + b, c] + post, pre + [a, b + [NUL] + c] + post)
  {
    JoinForgets(pre, a + [NUL] + b, c, post, NUL);
    JoinForgets(pre, a, b + [NUL] + c, post, NUL);
    assert a + [NUL] + b + [NUL] + c == a + [NUL] + (b + [NUL] + c);
    assert (pre + [a + [NUL] + b, c] + post)[|pre|] == a + [NUL] + b && (pre + [a, b + [NUL] + c] + post)[|pre|] == a;
  }

  lemma MovesLeft(pre: seq<string>, c: string, a: string, b: string)
    ensures SharesKey(pre + [c, a + [NUL] + b], pre + [c + [NUL] + a, b])
  {
    MovesRight(pre, c, a, b, []);
    assert pre + [c, a + [NUL] + b] == pre + [c, a + [NUL] + b] + [];
    assert pre + [c + [NUL] + a, b] == pre + [c + [NUL] + a, b] + [];
  }

  /** For instance ("a", NUL) and ("a" NUL, "") share one series. */
  lemma NulLabelsCollide()
    ensures SharesKey(["a", [NUL]], ["a" + [NUL], ""])
  {
    MovesLeft([], "a", "", "");
    assert "" + [NUL] + "" == [NUL] && "a" + [NUL] + "" == "a" + [NUL];
    assert [] + ["a", [NUL]] == ["a", [NUL]] && [] + ["a" + [NUL], ""] == ["a" + [NUL], ""];
  }

  function AtMost(own: seq<Call>, edge: real): nat {
    if own == [] then 0
    else AtMost(own[..|own| - 1], edge) + if own[|own| - 1].Observe? && own[|own| - 1].v <= edge then 1 else 0
  }

  function Observations(own: seq<Call>): nat {
    if own == [] then 0 else Observations(own[..|own| - 1]) + if own[|own| - 1].Observe? then 1 else 0
  }

  /** The sum of all observed values. */
  function Total(own: seq<Call>): real {
    if own == [] then 0.0 else Total(own[..|own| - 1]) + if own[|own| - 1].Observe? then own[|own| - 1].v else 0.0
  }

  lemma {:induction false} SumIsTotal(own: seq<Call>, labels: seq<string>)
    ensures Folded(own, labels).sum == Total(own) && Folded(own, labels).labels == labels
  {
    if own != [] {
      SumIsTotal(own[..|own| - 1], labels);
    }
  }

  /** Buckets are cumulative: each counts the observations at or below its edge, so
      counts never fall from one edge to the next and never exceed the total. */
  lemma {:induction false} BucketsCount(own: seq<Call>, labels: seq<string>)
    ensures Folded(own, labels).count == Observations(own)
    ensures forall i :: 0 <= i < |EDGES| ==>
      Folded(own, labels).buckets[i] == AtMost(own, EDGES[i]) <= Observations(own)
    ensures forall i, j :: 0 <= i < j < |EDGES| ==> Folded(own, labels).buckets[i] <= Folded(own, labels).buckets[j]
  {
    if own != [] {
      BucketsCount(own[..|own| - 1], labels);
      EdgesAscend();
    }
  }

  lemma EdgesAscend()
    ensures |EDGES| == 9 && EDGES[0] == 0.05 && EDGES[1] == 0.1 && EDGES[2] == 0.25 && EDGES[3] == 0.5
    ensures forall i :: 4 <= i < 9 ==> EDGES[i] == 2.0 * EDGES[i - 1]
    ensures forall i, j :: 0 <= i < j < |EDGES| ==> EDGES[i] < EDGES[j]
  {
  }

  /** The last gauge value set, plus everything added since. */
  function Balance(own: seq<Call>): real {
    if own == [] then 0.0
    else match own[|own| - 1]
      case Set(v, _) => v
      case Add(v, _) => Balance(own[..|own| - 1]) + v
      case Observe(_, _) => Balance(own[..|own| - 1])
  }

  lemma {:induction false} ValueIsBalance(own: seq<Call>, labels: seq<string>)
    ensures Folded(own, labels).value == Balance(own)
  {
    if own != [] {
      ValueIsBalance(own[..|own| - 1], labels);
    }
  }

  function ReplaceAll(s: string, c: char, with: string): string {
    if s == [] then [] else (if s[0] == c then with else [s[0]]) + ReplaceAll(s[1..], c, with)
  }

  function EscapeLabelValue(s: string): string {
    ReplaceAll(ReplaceAll(ReplaceAll(s, '\\', "\\\\"), '\"', "\\\""), '\n', "\\n")
  }

  function EscapeChar(c: char): string {
    if c == '\\' then "\\\\" else if c == '\"' then "\\\"" else if c == '\n' then "\\n" else [c]
  }

  function EscapeEach(s: string): string {
    if s == [] then [] else EscapeChar(s[0]) + EscapeEach(s[1..])
  }

  function Unescape(s: string): string {
    if s == [] then []
    else if s[0] == '\\' && |s| > 1 then [if s[1] == 'n' then '\n' else s[1]] + Unescape(s[2..])
    else [s[0]] + Unescape(s[1..])
  }

  /** Backslash, quote and line feed get a backslash in front, the line feed as an n; all
      other characters stay, and texts are escaped piece by piece. */
  lemma EscapeMeans(a: string, b: string, c: char)
    ensures EscapeLabelValue(a + b) == EscapeLabelValue(a) + EscapeLabelValue(b)
    ensures EscapeLabelValue("\\") == "\\\\" && EscapeLabelValue("\"") == "\\\"" && EscapeLabelValue("\n") == "\\n"
    ensures c !in {'\\', '\"', '\n'} ==> EscapeLabelValue([c]) == [c]
  {
    EscapePasses(a + b);
    EscapePasses(a);
    EscapePasses(b);
    EscapeEachConcat(a, b);
    EscapeOneChar('\\');
    EscapeOneChar('\"');
    EscapeOneChar('\n');
    EscapeOneChar(c);
  }

  lemma {:induction false} EscapeEachConcat(a: string, b: string)
    ensures EscapeEach(a + b) == EscapeEach(a) + EscapeEach(b)
  {
    if a == [] {
      assert a + b == b;
    } else {
      assert (a + b)[1..] == a[1..] + b;
      EscapeEachConcat(a[1..], b);
    }
  }

  lemma {:induction false} ReplaceAllConcat(a: string, b: string, c: char, with: string)
    ensures ReplaceAll(a + b, c, with) == ReplaceAll(a, c, with) + ReplaceAll(b, c, with)
  {
    if a == [] {
      assert a + b == b;
    } else {
      assert (a + b)[1..] == a[1..] + b;
      ReplaceAllConcat(a[1..], b, c, with);
    }
  }

  /** The three passes act like one map over characters. */
  lemma {:induction false} EscapePasses(s: string)
    ensures EscapeLabelValue(s) == EscapeEach(s)
  {
    if s != [] {
      EscapePasses(s[1..]);
      EscapeOneChar(s[0]);
      assert [s[0]] + s[1..] == s;
      var a, b := [s[0]], s[1..];
      ReplaceAllConcat(a, b, '\\', "\\\\");
      var a1, b1 := ReplaceAll(a, '\\', "\\\\"), ReplaceAll(b, '\\', "\\\\");
      ReplaceAllConcat(a1, b1, '\"', "\\\"");
      ReplaceAllConcat(ReplaceAll(a1, '\"', "\\\""), ReplaceAll(b1, '\"', "\\\""), '\n', "\\n");
    }
  }

  lemma EscapeOneChar(c: char)
    ensures EscapeLabelValue([c]) == EscapeChar(c)
  {
    assert [c][1..] == "";
    assert forall x: char, w: string :: ReplaceAll([c], x, w) == if c == x then w else [c];
    AbsentIsKept("\\\\", '\"', "\\\"");
    AbsentIsKept("\\\\", '\n', "\\n");
    AbsentIsKept("\\\"", '\n', "\\n");
  }

  lemma {:induction false} AbsentIsKept(s: string, c: char, with: string)
    requires c !in s
    ensures ReplaceAll(s, c, with) == s
  {
    if s != [] {
      AbsentIsKept(s[1..], c, with);
      assert [s[0]] + s[1..] == s;
    }
  }

  /** Escaping loses nothing. */
  lemma {:induction false} UnescapeEscape(s: string)
    ensures Unescape(EscapeLabelValue(s)) == s
    decreases s
  {
    EscapePasses(s);
    if s != [] {
      UnescapeEscape(s[1..]);
      EscapePasses(s[1..]);
      var e, rest := EscapeChar(s[0]), EscapeEach(s[1..]);
      assert (e + rest)[|e|..] == rest;
      assert [s[0]] + s[1..] == s;
    }
  }
}
