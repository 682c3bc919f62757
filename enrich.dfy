/** The overview back-fill script: its duration format, its rate-limit
    backoff and the loop that fetches each movie's details and updates the
    row. TMDb's replies are inputs, one per movie. */
module Enrichment {
  import opened Wrappers
  import opened Text
  import opened Records

  // ------------------------------------------------------------ durations

  function Hours(s: nat): nat { s / 3600 }
  function Minutes(s: nat): nat { (s % 3600) / 60 }
  function Secs(s: nat): nat { s % 60 }

  /** The three fields are a mixed-radix decomposition of the duration. */
  lemma Decompose(s: nat)
    ensures Minutes(s) < 60 && Secs(s) < 60
    ensures Hours(s) * 3600 + Minutes(s) * 60 + Secs(s) == s
  {
  }

  /** A number followed by its unit letter, as in `5m`. */
  function Unit(n: nat, c: char): string {
    NatToString(n) + [c]
  }

  /** `format_time` for a whole number of seconds: the leading zero fields
      are dropped, the seconds always shown. */
  function FormatTime(s: nat): (r: string)
    ensures Hours(s) > 0 ==> StartsWith(r, Unit(Hours(s), 'h'))
    ensures Hours(s) == 0 && Minutes(s) > 0 ==> StartsWith(r, Unit(Minutes(s), 'm'))
    ensures Hours(s) == 0 && Minutes(s) == 0 ==> r == Unit(s, 's')
  {
    if Hours(s) > 0 then Unit(Hours(s), 'h') + " " + Unit(Minutes(s), 'm') + " " + Unit(Secs(s), 's')
    else if Minutes(s) > 0 then Unit(Minutes(s), 'm') + " " + Unit(Secs(s), 's')
    else Unit(Secs(s), 's')
  }

  lemma NatToStringInjective(a: nat, b: nat)
    requires NatToString(a) == NatToString(b)
    ensures a == b
  {
    NatToStringValue(a);
    NatToStringValue(b);
  }

  /** Two strings that each start with a number and a unit letter agree on
      the number, the letter and the rest. */
  lemma UnitPrefix(a: nat, c: char, x: string, b: nat, d: char, y: string)
    requires !IsDigit(c) && !IsDigit(d)
    requires Unit(a, c) + x == Unit(b, d) + y
    ensures a == b && c == d && x == y
  {
    var s := Unit(a, c) + x;
    var A, B := NatToString(a), NatToString(b);
    assert forall k :: 0 <= k < |A| ==> s[k] == A[k];
    assert forall k :: 0 <= k < |B| ==> s[k] == B[k];
    assert !IsDigit(s[|A|]) && !IsDigit(s[|B|]);
    assert |A| == |B|;
    assert A == s[..|A|] == B;
    NatToStringInjective(a, b);
    assert s[|A|] == c && s[|A|] == d;
    assert x == s[|A| + 1..] == y;
  }

  /** The first number shown, its unit letter, and what follows it. */
  function Lead(s: nat): nat {
    if Hours(s) > 0 then Hours(s) else if Minutes(s) > 0 then Minutes(s) else Secs(s)
  }

  function LeadUnit(s: nat): char {
    if Hours(s) > 0 then 'h' else if Minutes(s) > 0 then 'm' else 's'
  }

  function Rest(s: nat): string {
    if Hours(s) > 0 then " " + Unit(Minutes(s), 'm') + " " + Unit(Secs(s), 's')
    else if Minutes(s) > 0 then " " + Unit(Secs(s), 's')
    else []
  }

  lemma FormatHead(s: nat)
    ensures FormatTime(s) == Unit(Lead(s), LeadUnit(s)) + Rest(s)
  {
  }

  lemma SecondsTail(a: nat, b: nat)
    requires " " + Unit(a, 's') == " " + Unit(b, 's')
    ensures a == b
  {
    assert Unit(a, 's') + [] == (" " + Unit(a, 's'))[1..] == Unit(b, 's') + [];
    UnitPrefix(a, 's', [], b, 's', []);
  }

  lemma MinutesTail(m1: nat, s1: nat, m2: nat, s2: nat)
    requires " " + Unit(m1, 'm') + " " + Unit(s1, 's') == " " + Unit(m2, 'm') + " " + Unit(s2, 's')
    ensures m1 == m2 && s1 == s2
  {
    var x1, x2 := " " + Unit(s1, 's'), " " + Unit(s2, 's');
    assert Unit(m1, 'm') + x1 == (" " + Unit(m1, 'm') + " " + Unit(s1, 's'))[1..];
    assert Unit(m2, 'm') + x2 == (" " + Unit(m2, 'm') + " " + Unit(s2, 's'))[1..];
    UnitPrefix(m1, 'm', x1, m2, 'm', x2);
    SecondsTail(s1, s2);
  }

  /** Different durations never format the same. */
  lemma FormatTimeInjective(a: nat, b: nat)
    requires FormatTime(a) == FormatTime(b)
    ensures a == b
  {
    FormatHead(a);
    FormatHead(b);
    UnitPrefix(Lead(a), LeadUnit(a), Rest(a), Lead(b), LeadUnit(b), Rest(b));
    if LeadUnit(a) == 'h' {
      MinutesTail(Minutes(a), Secs(a), Minutes(b), Secs(b));
    } else if LeadUnit(a) == 'm' {
      SecondsTail(Secs(a), Secs(b));
    }
    Decompose(a);
    Decompose(b);
  }

  // ------------------------------------------------------------- backoff

  /** The wait, in seconds, after the `n`-th rate-limit reply. */
  function Backoff(n: nat): nat {
    if 5 * n < 30 then 5 * n else 30
  }

  /** From the first rate-limit reply on, the wait lies between five and
      thirty seconds and never shrinks. */
  lemma BackoffBounds(n: nat, m: nat)
    requires 1 <= n <= m
    ensures 5 <= Backoff(n) <= Backoff(m) <= 30
  {
  }

  // ----------------------------------------------------------- the update

  /** The part of a TMDb details reply the script reads. */
  datatype Overview = Overview(overview: Option<string>, popularity: Option<real>)

  /** What fetching one movie's details came to. */
  datatype Attempt =
    | Replied(details: Option<Overview>)                 // `None`: no details
    | Failed                                             // raised, not a rate limit
    | RateLimited(retry: Option<Option<Overview>>)       // raised with 429; the retry's reply, `None` when it raised too

  /** Details worth writing: present, with a non-empty overview. */
  predicate Usable(d: Option<Overview>) {
    d.Some? && Truthy(d.value.overview)
  }

  /** The `UPDATE`: the overview replaced, the popularity filled in only
      where it was null; a missing row is left alone. */
  function Fill(t: Table, id: int, d: Overview): Table {
    if id !in t then t
    else t[id := t[id].(overview := d.overview, popularity := if t[id].popularity.Some? then t[id].popularity else d.popularity)]
  }

  datatype Tally = Tally(enriched: nat, skipped: nat, errors: nat, waits: nat)

  /** Every this many movies the script prints a progress report. */
  const ProgressInterval: nat := 100

  /** The progress report of the turn at 1-based position `pos` prints the
      first sixty characters of the movie's title; slicing a null title
      raises, after the row was written and counted as enriched. */
  predicate ReportRaises(pos: nat, title: Option<string>) {
    pos % ProgressInterval == 0 && title.None?
  }

  /** One turn of the loop, for the movie at 1-based position `pos`. A
      successful retry after a rate limit counts as enriched, not as an
      error; a progress report that raises adds an error to an enriched
      movie. */
  function Step(t: Table, c: Tally, id: int, pos: nat, title: Option<string>, a: Attempt): (Table, Tally) {
    match a
    case Replied(d) =>
      if Usable(d) then
        (Fill(t, id, d.value), c.(enriched := c.enriched + 1, errors := if ReportRaises(pos, title) then c.errors + 1 else c.errors))
      else (t, c.(skipped := c.skipped + 1))
    case Failed => (t, c.(errors := c.errors + 1))
    case RateLimited(retry) =>
      if retry.Some? && Usable(retry.value) then (Fill(t, id, retry.value.value), c.(enriched := c.enriched + 1, waits := c.waits + 1))
      else (t, c.(errors := c.errors + 1, waits := c.waits + 1))
  }

  /** The table and the counters after the movies `ids`, with titles
      `titles`, fetched with the outcomes `attempts`. */
  function Run(t: Table, ids: seq<int>, titles: seq<Option<string>>, attempts: seq<Attempt>): (Table, Tally)
    requires |ids| == |titles| == |attempts|
    decreases |ids|
  {
    if ids == [] then (t, Tally(0, 0, 0, 0))
    else
      var n := |ids| - 1;
      var (t0, c0) := Run(t, ids[..n], titles[..n], attempts[..n]);
      Step(t0, c0, ids[n], n + 1, titles[n], attempts[n])
  }

  /** Whether the turn at 0-based index `i` is counted both as enriched and
      as an error. */
  predicate Twice(titles: seq<Option<string>>, attempts: seq<Attempt>, i: nat)
    requires i < |titles| == |attempts|
  {
    attempts[i].Replied? && Usable(attempts[i].details) && ReportRaises(i + 1, titles[i])
  }

  /** The number of turns counted twice. */
  function DoubleCounted(titles: seq<Option<string>>, attempts: seq<Attempt>): nat
    requires |titles| == |attempts|
    decreases |titles|
  {
    if titles == [] then 0
    else
      var n := |titles| - 1;
      DoubleCounted(titles[..n], attempts[..n]) + (if Twice(titles, attempts, n) then 1 else 0)
  }

  /** Every movie processed is counted once as enriched, skipped or an
      error, except the enriched movies whose progress report raises,
      which are counted as an error as well. */
  lemma {:induction false} RunCounts(t: Table, ids: seq<int>, titles: seq<Option<string>>, attempts: seq<Attempt>)
    requires |ids| == |titles| == |attempts|
    ensures var c := Run(t, ids, titles, attempts).1;
            && c.enriched + c.skipped + c.errors == |ids| + DoubleCounted(titles, attempts)
            && c.waits <= |ids|
    decreases |ids|
  {
    if ids != [] {
      var n := |ids| - 1;
      RunCounts(t, ids[..n], titles[..n], attempts[..n]);
    }
  }

  /** With fewer than a report's worth of movies, or with no null title,
      no turn is counted twice. */
  lemma {:induction false} DoubleCountedZero(titles: seq<Option<string>>, attempts: seq<Attempt>)
    requires |titles| == |attempts|
    requires |titles| < ProgressInterval || forall i :: 0 <= i < |titles| ==> titles[i].Some?
    ensures DoubleCounted(titles, attempts) == 0
    decreases |titles|
  {
    if titles != [] {
      var n := |titles| - 1;
      assert !ReportRaises(n + 1, titles[n]);
      DoubleCountedZero(titles[..n], attempts[..n]);
    }
  }

  /** Rows are never added or removed; a row not in the worklist is never
      changed; a non-null popularity is never changed; and a row that has a
      non-empty overview keeps one. */
  lemma {:induction false} RunFrame(t: Table, ids: seq<int>, titles: seq<Option<string>>, attempts: seq<Attempt>)
    requires |ids| == |titles| == |attempts|
    ensures var t1 := Run(t, ids, titles, attempts).0;
      && t1.Keys == t.Keys
      && (forall k :: k in t && k !in ids ==> t1[k] == t[k])
      && (forall k :: k in t && t[k].popularity.Some? ==> t1[k].popularity == t[k].popularity)
      && (forall k :: k in t && Truthy(t[k].overview) ==> Truthy(t1[k].overview))
    decreases |ids|
  {
    if ids != [] {
      var n := |ids| - 1;
      RunFrame(t, ids[..n], titles[..n], attempts[..n]);
      forall k | k in t && k !in ids ensures k !in ids[..n] && k != ids[n] {
        assert ids == ids[..n] + [ids[n]];
      }
    }
  }

  /** A movie whose fetch yields an overview ends with a non-empty
      overview, whatever the later turns do. */
  lemma RunEnrichedHasOverview(t: Table, ids: seq<int>, titles: seq<Option<string>>, attempts: seq<Attempt>, i: nat)
    requires |ids| == |titles| == |attempts| && i < |ids| && ids[i] in t
    requires attempts[i].Replied? && Usable(attempts[i].details)
    ensures ids[i] in Run(t, ids, titles, attempts).0 && Truthy(Run(t, ids, titles, attempts).0[ids[i]].overview)
  {
    var t0 := Run(t, ids[..i + 1], titles[..i + 1], attempts[..i + 1]).0;
    assert ids[..i + 1][..i] == ids[..i] && titles[..i + 1][..i] == titles[..i] && attempts[..i + 1][..i] == attempts[..i];
    RunFrame(t, ids[..i], titles[..i], attempts[..i]);
    assert Truthy(t0[ids[i]].overview);
    RunFrame(t0, ids[i + 1..], titles[i + 1..], attempts[i + 1..]);
    RunSplit(t, ids, titles, attempts, i + 1);
  }

  /** The details a turn ends up with: the reply, or the retry's reply
      after a rate limit; none when the call raised. */
  function Reply(a: Attempt): Option<Overview> {
    match a
    case Replied(d) => d
    case Failed => None
    case RateLimited(retry) => if retry.Some? then retry.value else None
  }

  /** The update rule of one turn, for a movie the worklist does not list
      again later: with usable details the stored overview becomes the
      reply's overview and a null popularity is filled from the reply
      (a stored one is kept); otherwise the row stays as the earlier turns
      left it. The turn counts the movie as enriched exactly when the
      details are usable, as skipped exactly when a reply came without a
      usable overview, and as an error exactly when no usable details came
      from a call that raised, or when its progress report raised. */
  lemma RunTurn(t: Table, ids: seq<int>, titles: seq<Option<string>>, attempts: seq<Attempt>, i: nat)
    requires |ids| == |titles| == |attempts| && i < |ids| && ids[i] !in ids[i + 1..]
    ensures var before := Run(t, ids[..i], titles[..i], attempts[..i]);
      var turn := Run(t, ids[..i + 1], titles[..i + 1], attempts[..i + 1]).1;
      var after := Run(t, ids, titles, attempts).0;
      var id := ids[i];
      var d := Reply(attempts[i]);
      && (id in t <==> id in after)
      && (id in t ==>
            && id in before.0
            && (Usable(d) ==>
                  after[id] == before.0[id].(overview := d.value.overview,
                                             popularity := if before.0[id].popularity.Some? then before.0[id].popularity else d.value.popularity))
            && (!Usable(d) ==> after[id] == before.0[id]))
      && (turn.enriched == before.1.enriched + 1 <==> Usable(d))
      && (turn.skipped == before.1.skipped + 1 <==> attempts[i].Replied? && !Usable(d))
      && (turn.errors == before.1.errors + 1 <==>
            (!attempts[i].Replied? && !Usable(d)) || (attempts[i].Replied? && Usable(d) && ReportRaises(i + 1, titles[i])))
  {
    assert ids[..i + 1][..i] == ids[..i] && titles[..i + 1][..i] == titles[..i] && attempts[..i + 1][..i] == attempts[..i];
    var before := Run(t, ids[..i], titles[..i], attempts[..i]);
    assert Run(t, ids[..i + 1], titles[..i + 1], attempts[..i + 1]) == Step(before.0, before.1, ids[i], i + 1, titles[i], attempts[i]);
    StepReply(before.0, before.1, ids[i], i + 1, titles[i], attempts[i]);
    var mid := Run(t, ids[..i + 1], titles[..i + 1], attempts[..i + 1]).0;
    RunFrame(t, ids[..i], titles[..i], attempts[..i]);
    RunFrame(mid, ids[i + 1..], titles[i + 1..], attempts[i + 1..]);
    RunSplit(t, ids, titles, attempts, i + 1);
  }

  /** One turn writes the reply exactly when it is usable, whatever its
      position and title; the counters follow the same test. */
  lemma StepReply(t: Table, c: Tally, id: int, pos: nat, title: Option<string>, a: Attempt)
    ensures var d := Reply(a);
      && Step(t, c, id, pos, title, a).0 == (if Usable(d) then Fill(t, id, d.value) else t)
      && (Step(t, c, id, pos, title, a).1.enriched == c.enriched + 1 <==> Usable(d))
      && (Step(t, c, id, pos, title, a).1.skipped == c.skipped + 1 <==> a.Replied? && !Usable(d))
      && (Step(t, c, id, pos, title, a).1.errors == c.errors + 1 <==>
            (!a.Replied? && !Usable(d)) || (a.Replied? && Usable(d) && ReportRaises(pos, title)))
  {
  }

  /** Running a worklist is running its prefix, then the rest. */
  lemma {:induction false} RunSplit(t: Table, ids: seq<int>, titles: seq<Option<string>>, attempts: seq<Attempt>, m: nat)
    requires |ids| == |titles| == |attempts| && m <= |ids|
    ensures Run(t, ids, titles, attempts).0 == Run(Run(t, ids[..m], titles[..m], attempts[..m]).0, ids[m..], titles[m..], attempts[m..]).0
    decreases |ids|
  {
    if |ids| > m {
      var n := |ids| - 1;
      RunSplit(t, ids[..n], titles[..n], attempts[..n], m);
      assert ids[..n][..m] == ids[..m] && titles[..n][..m] == titles[..m] && attempts[..n][..m] == attempts[..m];
      var rest, restT, restA := ids[m..], titles[m..], attempts[m..];
      var k := |rest| - 1;
      assert rest[..k] == ids[..n][m..] && restT[..k] == titles[..n][m..] && restA[..k] == attempts[..n][m..];
      assert rest[k] == ids[n] && restT[k] == titles[n] && restA[k] == attempts[n];
      var full := Run(t, ids[..n], titles[..n], attempts[..n]);
      var part := Run(Run(t, ids[..m], titles[..m], attempts[..m]).0, rest[..k], restT[..k], restA[..k]);
      StepReply(full.0, full.1, ids[n], n + 1, titles[n], attempts[n]);
      StepReply(part.0, part.1, rest[k], k + 1, restT[k], restA[k]);
    } else {
      assert ids[..m] == ids && titles[..m] == titles && attempts[..m] == attempts;
    }
  }

  /** The loop of the script: `waitTimes` are the backoff waits in the
      order they happen. */
  method EnrichMovies(table: Table, ids: seq<int>, titles: seq<Option<string>>, attempts: seq<Attempt>)
    returns (t: Table, enriched: nat, skipped: nat, errors: nat, waits: nat, waitTimes: seq<nat>)
    requires |ids| == |titles| == |attempts|
    ensures (t, Tally(enriched, skipped, errors, waits)) == Run(table, ids, titles, attempts)
    ensures |waitTimes| == waits && forall i :: 0 <= i < waits ==> waitTimes[i] == Backoff(i + 1)
  {
    t, enriched, skipped, errors, waits, waitTimes := table, 0, 0, 0, 0, [];
    for idx := 0 to |ids|
      invariant (t, Tally(enriched, skipped, errors, waits)) == Run(table, ids[..idx], titles[..idx], attempts[..idx])
      invariant |waitTimes| == waits && forall i :: 0 <= i < waits ==> waitTimes[i] == Backoff(i + 1)
    {
      assert ids[..idx + 1][..idx] == ids[..idx] && titles[..idx + 1][..idx] == titles[..idx] && attempts[..idx + 1][..idx] == attempts[..idx];
      var id, position := ids[idx], idx + 1;
      match attempts[idx]
      case Replied(details) =>
        if details.Some? && details.value.overview.Some? && details.value.overview.value != "" {
          t := Fill(t, id, details.value);
          enriched := enriched + 1;
          if position % ProgressInterval == 0 && titles[idx].None? {
            errors := errors + 1;  // the report's title slice raised
          }
        } else {
          skipped := skipped + 1;
        }
      case Failed =>
        errors := errors + 1;
      case RateLimited(retry) =>
        errors := errors + 1;
        waits := waits + 1;
        waitTimes := waitTimes + [if 30 < waits * 5 then 30 else waits * 5];
        if retry.Some? && Usable(retry.value) {
          t := Fill(t, id, retry.value.value);
          enriched := enriched + 1;
          errors := errors - 1;
        }
    }
    assert ids[..|ids|] == ids && titles[..|ids|] == titles && attempts[..|ids|] == attempts;
  }
}
