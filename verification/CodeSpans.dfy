/**
 extractCode of lib/discussion-markdown.js: code spans as in section 6.1 of CommonMark
 0.31.2. A backtick run opens a span closed by the next run of the same length; spans and
 the text between them tile the line.
 */
module CodeSpans {
  import opened Util

  datatype Run = Run(start: nat, len: nat)

  // Text outside code, s[lo..hi], or the span from run `open` to run `close`.
  datatype Segment = Plain(lo: nat, hi: nat) | Code(open: nat, close: nat)

  function End(r: Run): nat {
    r.start + r.len
  }

  // A maximal run of backticks, less a first one escaped by a backslash.
  ghost predicate IsRun(s: string, r: Run) {
    && r.len > 0 && End(r) <= |s|
    && (forall p :: r.start <= p < End(r) ==> s[p] == '`')
    && (End(r) < |s| ==> s[End(r)] != '`')
    && (r.start > 0 ==> s[r.start - 1] != '\\')
    && (r.start > 0 && s[r.start - 1] == '`' ==> r.start > 1 && s[r.start - 2] == '\\')
  }

  ghost predicate InRun(runs: seq<Run>, p: nat) {
    exists k :: 0 <= k < |runs| && runs[k].start <= p < End(runs[k])
  }

  ghost predicate Ordered(runs: seq<Run>) {
    forall k, l :: 0 <= k < l < |runs| ==> End(runs[k]) < runs[l].start
  }

  // All runs of s, in order: every backtick is in one or escaped.
  ghost predicate AllRuns(s: string, runs: seq<Run>, upTo: nat)
    requires upTo <= |s|
  {
    && (forall k :: 0 <= k < |runs| ==> IsRun(s, runs[k]) && End(runs[k]) <= upTo)
    && Ordered(runs)
    && (forall p: nat :: p < upTo ==> Accounted(s, runs, p))
  }

  // A backtick is in a run or escaped.
  ghost predicate Accounted(s: string, runs: seq<Run>, p: nat)
    requires p < |s|
  {
    s[p] == '`' ==> InRun(runs, p) || (p > 0 && s[p - 1] == '\\')
  }

  lemma InRunMore(runs: seq<Run>, more: seq<Run>, p: nat)
    requires runs <= more
    ensures InRun(runs, p) ==> InRun(more, p)
  {
    if InRun(runs, p) {
      var k :| 0 <= k < |runs| && runs[k].start <= p < End(runs[k]);
      assert more[k] == runs[k];
    }
  }

  // The backticks from i to j: a whole stretch with nothing like it in front.
  ghost predicate Stretch(s: string, i: nat, j: nat) {
    && i < j <= |s| && (j < |s| ==> s[j] != '`') && (i > 0 ==> s[i - 1] != '`')
    && forall p :: i <= p < j ==> s[p] == '`'
  }

  // Its run starts one later when a backslash is in front.
  function StartOf(s: string, i: nat): nat
    requires i <= |s|
  {
    if i > 0 && s[i - 1] == '\\' then i + 1 else i
  }

  function WithRun(s: string, runs: seq<Run>, i: nat, j: nat): seq<Run>
    requires i <= j <= |s|
  {
    if j > StartOf(s, i) then runs + [Run(StartOf(s, i), j - StartOf(s, i))] else runs
  }

  lemma StretchAccounted(s: string, runs: seq<Run>, i: nat, j: nat, p: nat)
    requires Stretch(s, i, j) && p < j && (p < i ==> Accounted(s, runs, p))
    ensures Accounted(s, WithRun(s, runs, i, j), p)
  {
    var more := WithRun(s, runs, i, j);
    if p < i {
      InRunMore(runs, more, p);
    } else if p >= StartOf(s, i) {
      var last := more[|more| - 1];
      assert last.start <= p < End(last);
    }
  }

  lemma RunEndsBefore(s: string, r: Run, i: nat, j: nat)
    requires Stretch(s, i, j) && IsRun(s, r) && End(r) <= i
    ensures End(r) < i
  {
    assert s[End(r) - 1] == '`';
  }

  lemma PushRun(s: string, runs: seq<Run>, i: nat, j: nat)
    requires Stretch(s, i, j) && AllRuns(s, runs, i)
    ensures AllRuns(s, WithRun(s, runs, i, j), j)
  {
    var more := WithRun(s, runs, i, j);
    forall p: nat | p < j ensures Accounted(s, more, p) {
      StretchAccounted(s, runs, i, j, p);
    }
    forall k | 0 <= k < |runs| ensures End(runs[k]) < i {
      RunEndsBefore(s, runs[k], i, j);
    }
    if j > StartOf(s, i) {
    }
  }

  // The inner loop: the end of the stretch that starts at i.
  method StretchEnd(s: string, i: nat) returns (j: nat)
    requires i < |s| && s[i] == '`' && (i > 0 ==> s[i - 1] != '`')
    ensures Stretch(s, i, j)
  {
    j := i;
    while j < |s| && s[j] == '`'
      invariant i <= j <= |s| && forall p :: i <= p < j ==> s[p] == '`'
    {
      j := j + 1;
    }
  }

  method FindRuns(s: string) returns (runs: seq<Run>)
    ensures AllRuns(s, runs, |s|)
  {
    runs := [];
    var i: nat := 0;
    while i < |s|
      invariant i <= |s| && AllRuns(s, runs, i)
      invariant 0 < i < |s| && s[i] == '`' ==> s[i - 1] != '`'
    {
      if s[i] != '`' {
        assert forall p: nat :: p < i + 1 ==> Accounted(s, runs, p);
        i := i + 1;
      } else {
        var j := StretchEnd(s, i);
        var start := if i > 0 && s[i - 1] == '\\' then i + 1 else i;
        PushRun(s, runs, i, j);
        if j > start {
          runs := runs + [Run(start, j - start)];
        }
        i := j;
      }
    }
  }

  // The nearest later run of the same length, or none.
  ghost predicate IsNext(runs: seq<Run>, k: nat, m: Option<nat>)
    requires k < |runs|
  {
    match m
    case None => forall l :: k < l < |runs| ==> runs[l].len != runs[k].len
    case Some(n) => k < n < |runs| && runs[n].len == runs[k].len && forall l :: k < l < n ==> runs[l].len != runs[k].len
  }

  // The right-to-left index: the nearest run of each length seen so far.
  method NextOfSameLength(runs: seq<Run>) returns (next: seq<Option<nat>>)
    ensures |next| == |runs| && forall k :: 0 <= k < |runs| ==> IsNext(runs, k, next[k])
  {
    var a := new Option<nat>[|runs|](_ => None);
    var seen: map<nat, nat> := map[];
    var k := |runs|;
    while k > 0
      invariant 0 <= k <= |runs| == a.Length
      invariant forall j :: k <= j < |runs| ==> IsNext(runs, j, a[j])
      invariant forall len :: len in seen ==> k <= seen[len] < |runs| && runs[seen[len]].len == len
      invariant forall l :: k <= l < |runs| ==> runs[l].len in seen && seen[runs[l].len] <= l
    {
      k := k - 1;
      var len := runs[k].len;
      a[k] := if len in seen then Some(seen[len]) else None;
      seen := seen[len := k];
    }
    next := a[..];
  }

  function Lo(runs: seq<Run>, g: Segment): nat
    requires g.Code? ==> g.open < |runs|
  {
    if g.Plain? then g.lo else runs[g.open].start
  }

  function Hi(runs: seq<Run>, g: Segment): nat
    requires g.Code? ==> g.close < |runs|
  {
    if g.Plain? then g.hi else End(runs[g.close])
  }

  // The segments cut s[..upTo] into consecutive pieces.
  ghost predicate Tiles(runs: seq<Run>, segs: seq<Segment>, upTo: nat) {
    && (forall g :: g in segs && g.Code? ==> g.open < |runs| && g.close < |runs|)
    && (if segs == [] then upTo == 0
        else Lo(runs, segs[0]) == 0 && Hi(runs, segs[|segs| - 1]) == upTo)
    && (forall k :: 0 <= k < |segs| ==> Lo(runs, segs[k]) <= Hi(runs, segs[k]))
    && (forall k :: 0 < k < |segs| ==> Hi(runs, segs[k - 1]) == Lo(runs, segs[k]))
  }

  predicate InCode(segs: seq<Segment>, k: nat) {
    exists g :: g in segs && g.Code? && g.open <= k <= g.close
  }

  // Each span is closed by the next run of its length, and a run outside every span has
  // no later run of its length.
  ghost predicate Paired(runs: seq<Run>, segs: seq<Segment>, upTo: nat)
    requires upTo <= |runs|
  {
    && (forall g :: g in segs && g.Code? ==> g.open < |runs| && IsNext(runs, g.open, Some(g.close)))
    && (forall k: nat :: k < upTo ==> InCode(segs, k) || IsNext(runs, k, None))
  }

  // One span after the text before it.
  lemma PushSpan(runs: seq<Run>, segs: seq<Segment>, pos: nat, k: nat, m: nat)
    requires Tiles(runs, segs, pos) && k < m < |runs| && pos <= runs[k].start && Ordered(runs)
    requires Paired(runs, segs, k) && IsNext(runs, k, Some(m))
    ensures var more := segs + [Plain(pos, runs[k].start), Code(k, m)];
            Tiles(runs, more, End(runs[m])) && Paired(runs, more, m + 1)
  {
    var more := segs + [Plain(pos, runs[k].start), Code(k, m)];
    forall g | g in more && g.Code? ensures g.open < |runs| && g.close < |runs| && IsNext(runs, g.open, Some(g.close)) {
      assert g in segs || g == Code(k, m);
    }
    forall l: nat | l < m + 1 ensures InCode(more, l) || IsNext(runs, l, None) {
      if l < k {
        InCodeMore(segs, more, l);
      } else {
        assert more[|more| - 1] == Code(k, m);
      }
    }
    forall j | 0 < j < |more| ensures Hi(runs, more[j - 1]) == Lo(runs, more[j]) {
      if j < |segs| {
        assert more[j] == segs[j] && more[j - 1] == segs[j - 1];
      }
    }
  }

  lemma InCodeMore(segs: seq<Segment>, more: seq<Segment>, l: nat)
    requires segs <= more
    ensures InCode(segs, l) ==> InCode(more, l)
  {
    if InCode(segs, l) {
      var g :| g in segs && g.Code? && g.open <= l <= g.close;
      assert g in more;
    }
  }

  // The text after the last span.
  lemma PushRest(runs: seq<Run>, segs: seq<Segment>, pos: nat, end: nat)
    requires Tiles(runs, segs, pos) && pos <= end && Paired(runs, segs, |runs|)
    ensures var more := segs + [Plain(pos, end)];
            Tiles(runs, more, end) && Paired(runs, more, |runs|)
  {
    var more := segs + [Plain(pos, end)];
    forall g | g in more && g.Code? ensures g.open < |runs| && g.close < |runs| && IsNext(runs, g.open, Some(g.close)) {
      assert g in segs;
    }
    forall l: nat | l < |runs| ensures InCode(more, l) || IsNext(runs, l, None) {
      InCodeMore(segs, more, l);
    }
  }

  // extractCode: the runs of the line, and its cut into spans and text.
  method ExtractCode(s: string) returns (segs: seq<Segment>, runs: seq<Run>)
    ensures AllRuns(s, runs, |s|)
    ensures Tiles(runs, segs, |s|) && Paired(runs, segs, |runs|)
  {
    runs := FindRuns(s);
    var next := NextOfSameLength(runs);
    segs := [];
    var pos: nat, k: nat := 0, 0;
    while k < |runs|
      invariant k <= |runs| && pos <= |s|
      invariant k < |runs| ==> pos <= runs[k].start
      invariant Tiles(runs, segs, pos) && Paired(runs, segs, k)
    {
      assert IsNext(runs, k, next[k]);
      if next[k].None? {
        k := k + 1;
      } else {
        var m := next[k].value;
        PushSpan(runs, segs, pos, k, m);
        segs := segs + [Plain(pos, runs[k].start), Code(k, m)];
        pos, k := End(runs[m]), m + 1;
      }
    }
    PushRest(runs, segs, pos, |s|);
    segs := segs + [Plain(pos, |s|)];
  }
}
