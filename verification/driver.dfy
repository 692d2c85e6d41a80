/**
  `lcsRunDyStyleDependency`: one pass over the document.

  Nothing happens without a body or when the body opts out with
  `data-dystyle="false"`. Otherwise every element with a class attribute is
  visited in document order; an element that opts out contributes no class
  names. Every class name that the class-name grammar decomposes is compiled;
  its rule goes into the media bucket when it starts with `@media` and into
  the regular bucket otherwise, unless that bucket already holds it. An
  exception ends the pass at once: nothing is flushed, but what was pushed
  and added before stays. A pass that completes appends every regular rule and
  then every media rule to the style element.

  The buckets live across passes, so they are an input and an output here.
 */
module Driver {
  import opened Wrappers
  import opened Text
  import opened Failures
  import Lookup
  import Compiler

  /** An element with a class attribute: whether it opts out, its class attribute, what the compiler reads of it. */
  datatype Job = Job(optedOut: bool, classAttribute: string, element: Compiler.Element)

  /** The document body: whether it opts out, and its descendants with a class attribute in document order. */
  datatype Body = Body(optedOut: bool, jobs: seq<Job>)

  /** `dySTYLE_RegularCSSBucket` and `dySTYLE_MediaQueryCSSBucket`. */
  datatype Buckets = Buckets(regular: seq<string>, media: seq<string>)

  /** A `classList.add(className)` on the element of job number `index`. */
  datatype Added = Added(index: nat, className: string)

  /** The pass so far: the buckets, the classes added, and every rule compiled, in order. */
  datatype Progress = Progress(buckets: Buckets, added: seq<Added>, rules: seq<string>)

  datatype Step = Running(progress: Progress) | Stopped(failure: Failure, progress: Progress)

  /**
    What a pass leaves behind: nothing at all, a completed pass with the text it
    appended to the style element, or a pass ended by an exception.
   */
  datatype Outcome =
    | Skipped
    | Finished(buckets: Buckets, added: seq<Added>, rules: seq<string>, flushed: seq<string>)
    | Aborted(failure: Failure, buckets: Buckets, added: seq<Added>, rules: seq<string>)

  /** The class-name grammar: the six groups of a `dySTYLE` class name, or `None` when it does not match. */
  type Decompose = string -> Option<Compiler.ClassParts>

  // ---------------------------------------------------------------------------
  // Class names of one element

  /** `filter(item => item.trim())`: the items with a character that is not white space. */
  function NonBlank(items: seq<string>): (r: seq<string>)
    ensures |r| <= |items|
    ensures forall x :: x in r <==> x in items && !AllSpace(x)
    ensures |items| == 1 ==> r == (if AllSpace(items[0]) then [] else items)
  {
    if |items| == 0 then []
    else
      var rest := NonBlank(items[1..]);
      assert forall x :: x in items <==> x == items[0] || x in items[1..];
      if AllSpace(items[0]) then rest else [items[0]] + rest
  }

  /**
    `filter` keeps the order and the repetitions of the items it keeps: it
    distributes over concatenation, so a class listed twice is kept twice.
   */
  lemma {:induction false} NonBlankAppend(a: seq<string>, b: seq<string>)
    ensures NonBlank(a + b) == NonBlank(a) + NonBlank(b)
    decreases |a|
  {
    if |a| == 0 {
      assert a + b == b;
    } else {
      assert (a + b)[0] == a[0];
      assert (a + b)[1..] == a[1..] + b;
      NonBlankAppend(a[1..], b);
    }
  }

  /** The class names of an element: none when it opts out, else its class attribute split on spaces. */
  function ClassNames(job: Job): (r: seq<string>)
    ensures forall k :: 0 <= k < |r| ==> ' ' !in r[k] && !AllSpace(r[k])
    ensures job.optedOut ==> r == []
    ensures forall x :: x in r <==> !job.optedOut && x in Split(job.classAttribute, ' ') && !AllSpace(x)
  {
    var text := if job.optedOut then "" else job.classAttribute;
    var names := NonBlank(Split(text, ' '));
    assert forall k :: 0 <= k < |names| ==> names[k] in names;
    assert job.optedOut ==> names == [] by {
      if job.optedOut {
        SplitNoSep(text, ' ');
        assert AllSpace(text);
      }
    }
    names
  }

  // ---------------------------------------------------------------------------
  // Buckets

  predicate IsMediaRule(rule: string) { StartsWith(rule, "@media") }

  /** `if (!bucket.includes(rule)) bucket.push(rule)`. */
  function AddOnce(bucket: seq<string>, rule: string): (r: seq<string>)
    ensures bucket <= r && rule in r
    ensures forall x :: x in r <==> x in bucket || x == rule
  {
    if rule in bucket then bucket else bucket + [rule]
  }

  /** The routing on the `@media` prefix. */
  function Route(b: Buckets, rule: string): Buckets
  {
    if IsMediaRule(rule) then b.(media := AddOnce(b.media, rule)) else b.(regular := AddOnce(b.regular, rule))
  }

  predicate NoDuplicates(s: seq<string>)
  {
    forall i, j :: 0 <= i < j < |s| ==> s[i] != s[j]
  }

  /** Each bucket holds each rule once, and only rules of its own kind. */
  predicate WellRouted(b: Buckets)
  {
    NoDuplicates(b.regular) && NoDuplicates(b.media) &&
    (forall k :: 0 <= k < |b.media| ==> IsMediaRule(b.media[k])) &&
    (forall k :: 0 <= k < |b.regular| ==> !IsMediaRule(b.regular[k]))
  }

  /** Every rule of `rules` is in the bucket of its kind. */
  predicate Covers(b: Buckets, rules: seq<string>)
  {
    forall x :: x in rules ==> if IsMediaRule(x) then x in b.media else x in b.regular
  }

  /**
    The buckets after compiling `rules` from `initial`: both buckets extend the
    initial ones, keep their kind and hold no duplicates, and a rule is in a
    bucket exactly when it was there before or was compiled and is of its kind.
   */
  ghost predicate Accounts(initial: Buckets, b: Buckets, rules: seq<string>)
  {
    WellRouted(b) &&
    initial.regular <= b.regular && initial.media <= b.media &&
    (forall x :: x in b.regular <==> x in initial.regular || (x in rules && !IsMediaRule(x))) &&
    (forall x :: x in b.media <==> x in initial.media || (x in rules && IsMediaRule(x)))
  }

  // ---------------------------------------------------------------------------
  // The pass

  /** The class name as the compiler sees it: not decomposed, compiled, or failing. */
  function ProcessName(tables: Lookup.Tables, decompose: Decompose, element: Compiler.Element, index: nat,
                       name: string, p: Progress): (r: Step)
    ensures r.Running? && r.progress != p ==>
      |r.progress.rules| == |p.rules| + 1 && r.progress.rules[..|p.rules|] == p.rules &&
      r.progress.buckets == Route(p.buckets, r.progress.rules[|p.rules|])
    ensures r.Stopped? ==> r.progress == p
  {
    match decompose(name)
    case None => Running(p)
    case Some(parts) =>
      match Compiler.Compile(tables, parts, element)
      case Err(f) => Stopped(f, p)
      case Ok(c) =>
        var added := if c.classToAdd.Some? then p.added + [Added(index, c.classToAdd.value)] else p.added;
        Running(Progress(Route(p.buckets, c.rule), added, p.rules + [c.rule]))
  }

  /** Whether compiling `name` throws. */
  predicate Fails(tables: Lookup.Tables, decompose: Decompose, element: Compiler.Element, name: string)
  {
    decompose(name).Some? && Compiler.Compile(tables, decompose(name).value, element).Err?
  }

  /** The inner loop over the class names of one element. */
  function ProcessNames(tables: Lookup.Tables, decompose: Decompose, element: Compiler.Element, index: nat,
                        names: seq<string>, p: Progress): (r: Step)
    ensures p.rules <= r.progress.rules
    ensures p.buckets.regular <= r.progress.buckets.regular && p.buckets.media <= r.progress.buckets.media
    decreases |names|
  {
    if |names| == 0 then Running(p)
    else
      match ProcessName(tables, decompose, element, index, names[0], p)
      case Stopped(f, q) => Stopped(f, q)
      case Running(q) => ProcessNames(tables, decompose, element, index, names[1..], q)
  }

  /** The outer loop over the elements from number `i` on. */
  function ProcessJobs(tables: Lookup.Tables, decompose: Decompose, jobs: seq<Job>, i: nat, p: Progress): (r: Step)
    requires i <= |jobs|
    ensures p.rules <= r.progress.rules
    ensures p.buckets.regular <= r.progress.buckets.regular && p.buckets.media <= r.progress.buckets.media
    decreases |jobs| - i
  {
    if i == |jobs| then Running(p)
    else
      match ProcessNames(tables, decompose, jobs[i].element, i, ClassNames(jobs[i]), p)
      case Stopped(f, q) => Stopped(f, q)
      case Running(q) => ProcessJobs(tables, decompose, jobs, i + 1, q)
  }

  /** `lcsRunDyStyleDependency`, with `None` for a document without a body. */
  function Run(tables: Lookup.Tables, decompose: Decompose, body: Option<Body>, initial: Buckets): (r: Outcome)
    ensures body.None? || body.value.optedOut <==> r.Skipped?
    ensures !r.Skipped? ==> initial.regular <= r.buckets.regular && initial.media <= r.buckets.media
  {
    if body.None? || body.value.optedOut then Skipped
    else
      var start := Progress(initial, [], []);
      match ProcessJobs(tables, decompose, body.value.jobs, 0, start)
      case Running(q) => Finished(q.buckets, q.added, q.rules, q.buckets.regular + q.buckets.media)
      case Stopped(f, q) => Aborted(f, q.buckets, q.added, q.rules)
  }

  // ---------------------------------------------------------------------------
  // Properties of the buckets

  /** Routing one rule keeps the bucket account, whatever the rule. */
  lemma RouteAccounts(initial: Buckets, b: Buckets, rules: seq<string>, rule: string)
    requires Accounts(initial, b, rules)
    ensures Accounts(initial, Route(b, rule), rules + [rule])
  {
    var r := Route(b, rule);
    assert forall x :: x in rules + [rule] <==> x in rules || x == rule;
    if IsMediaRule(rule) {
      assert r.media == AddOnce(b.media, rule);
      if rule !in b.media {
        forall i, j | 0 <= i < j < |r.media| ensures r.media[i] != r.media[j] {
          if j == |b.media| { assert r.media[i] in b.media; }
        }
      }
    } else {
      assert r.regular == AddOnce(b.regular, rule);
      if rule !in b.regular {
        forall i, j | 0 <= i < j < |r.regular| ensures r.regular[i] != r.regular[j] {
          if j == |b.regular| { assert r.regular[i] in b.regular; }
        }
      }
    }
  }

  lemma NameAccounts(tables: Lookup.Tables, decompose: Decompose, element: Compiler.Element, index: nat,
                     name: string, initial: Buckets, p: Progress)
    requires Accounts(initial, p.buckets, p.rules)
    ensures var r := ProcessName(tables, decompose, element, index, name, p);
      Accounts(initial, r.progress.buckets, r.progress.rules)
  {
    if decompose(name).Some? {
      var c := Compiler.Compile(tables, decompose(name).value, element);
      if c.Ok? {
        RouteAccounts(initial, p.buckets, p.rules, c.value.rule);
      }
    }
  }

  lemma {:induction false} NamesAccount(tables: Lookup.Tables, decompose: Decompose, element: Compiler.Element,
                                        index: nat, names: seq<string>, initial: Buckets, p: Progress)
    requires Accounts(initial, p.buckets, p.rules)
    ensures var r := ProcessNames(tables, decompose, element, index, names, p);
      Accounts(initial, r.progress.buckets, r.progress.rules)
    decreases |names|
  {
    if |names| > 0 {
      NameAccounts(tables, decompose, element, index, names[0], initial, p);
      var s := ProcessName(tables, decompose, element, index, names[0], p);
      if s.Running? {
        NamesAccount(tables, decompose, element, index, names[1..], initial, s.progress);
      }
    }
  }

  /**
    The bucket account holds through the element loop: starting from buckets
    that are well routed, every prefix of the pass leaves both buckets extended,
    duplicate-free and routed by the `@media` prefix, holding exactly the old
    rules and the compiled ones.
   */
  lemma {:induction false} JobsAccount(tables: Lookup.Tables, decompose: Decompose, jobs: seq<Job>, i: nat,
                                       initial: Buckets, p: Progress)
    requires i <= |jobs|
    requires Accounts(initial, p.buckets, p.rules)
    ensures var r := ProcessJobs(tables, decompose, jobs, i, p);
      Accounts(initial, r.progress.buckets, r.progress.rules)
    decreases |jobs| - i
  {
    if i < |jobs| {
      NamesAccount(tables, decompose, jobs[i].element, i, ClassNames(jobs[i]), initial, p);
      var s := ProcessNames(tables, decompose, jobs[i].element, i, ClassNames(jobs[i]), p);
      if s.Running? {
        JobsAccount(tables, decompose, jobs, i + 1, initial, s.progress);
      }
    }
  }

  /**
    After any pass over well-routed buckets, whether it completes or aborts,
    a rule is in the media bucket exactly when it was there before or was
    compiled and starts with `@media`, and in the regular bucket exactly when
    it was there before or was compiled and does not; no bucket repeats a rule.
   */
  lemma BucketsAccount(tables: Lookup.Tables, decompose: Decompose, body: Body, initial: Buckets)
    requires WellRouted(initial) && !body.optedOut
    ensures var r := Run(tables, decompose, Some(body), initial);
      (r.Finished? || r.Aborted?) && Accounts(initial, r.buckets, r.rules)
  {
    var start := Progress(initial, [], []);
    assert Accounts(initial, start.buckets, start.rules);
    JobsAccount(tables, decompose, body.jobs, 0, initial, start);
  }

  /** Well-routed buckets flush every regular rule before any media rule, and no rule twice. */
  lemma WellRoutedFlush(b: Buckets)
    requires WellRouted(b)
    ensures var f := b.regular + b.media;
      NoDuplicates(f) &&
      forall i, j :: 0 <= i < j < |f| && IsMediaRule(f[i]) ==> IsMediaRule(f[j])
  {
    var f := b.regular + b.media;
    var n := |b.regular|;
    forall i, j | 0 <= i < j < |f| ensures f[i] != f[j] {
      if j >= n && i < n {
        assert IsMediaRule(b.media[j - n]);
        assert !IsMediaRule(b.regular[i]);
      } else if j >= n {
        assert f[i] == b.media[i - n];
      }
    }
    forall i, j | 0 <= i < j < |f| && IsMediaRule(f[i]) ensures IsMediaRule(f[j]) {
      if i >= n {
        assert f[j] == b.media[j - n];
      }
    }
  }

  /**
    The flush of a completed pass appends every regular rule before any media
    rule, and appends no rule twice.
   */
  lemma FlushOrder(tables: Lookup.Tables, decompose: Decompose, body: Body, initial: Buckets)
    requires WellRouted(initial)
    requires Run(tables, decompose, Some(body), initial).Finished?
    ensures var f := Run(tables, decompose, Some(body), initial).flushed;
      NoDuplicates(f) &&
      forall i, j :: 0 <= i < j < |f| && IsMediaRule(f[i]) ==> IsMediaRule(f[j])
  {
    BucketsAccount(tables, decompose, body, initial);
    WellRoutedFlush(Run(tables, decompose, Some(body), initial).buckets);
  }

  // ---------------------------------------------------------------------------
  // Properties of the control flow

  /** An element that opts out changes nothing. */
  lemma OptedOutElementContributesNothing(tables: Lookup.Tables, decompose: Decompose, job: Job, index: nat, p: Progress)
    requires job.optedOut
    ensures ProcessNames(tables, decompose, job.element, index, ClassNames(job), p) == Running(p)
  {
    assert Split("", ' ') == [""];
    assert AllSpace("");
    assert NonBlank([""]) == [];
  }

  /** Some class name of the element throws. */
  predicate JobFails(tables: Lookup.Tables, decompose: Decompose, job: Job)
  {
    exists k :: 0 <= k < |ClassNames(job)| && Fails(tables, decompose, job.element, ClassNames(job)[k])
  }

  /** One class name of the inner loop: a stop ends it, otherwise it carries on with the rest. */
  lemma NamesStep(tables: Lookup.Tables, decompose: Decompose, element: Compiler.Element, index: nat,
                  names: seq<string>, p: Progress)
    requires |names| > 0
    ensures var s := ProcessName(tables, decompose, element, index, names[0], p);
      ProcessNames(tables, decompose, element, index, names, p) ==
        if s.Running? then ProcessNames(tables, decompose, element, index, names[1..], s.progress) else s
  {
  }

  /** The inner loop stops exactly when one of its class names throws. */
  lemma {:induction false} NamesStopIff(tables: Lookup.Tables, decompose: Decompose, element: Compiler.Element,
                                        index: nat, names: seq<string>, p: Progress)
    ensures ProcessNames(tables, decompose, element, index, names, p).Stopped? <==>
      exists k :: 0 <= k < |names| && Fails(tables, decompose, element, names[k])
    decreases |names|
  {
    if |names| > 0 {
      NamesStep(tables, decompose, element, index, names, p);
      var s := ProcessName(tables, decompose, element, index, names[0], p);
      if s.Running? {
        var rest := names[1..];
        NamesStopIff(tables, decompose, element, index, rest, s.progress);
        ShiftFails(tables, decompose, element, names);
      } else {
        assert Fails(tables, decompose, element, names[0]);
      }
    }
  }

  /** Past a first name that does not throw, a throwing name of the list is one of the rest. */
  lemma ShiftFails(tables: Lookup.Tables, decompose: Decompose, element: Compiler.Element, names: seq<string>)
    requires |names| > 0 && !Fails(tables, decompose, element, names[0])
    ensures (exists k :: 0 <= k < |names| && Fails(tables, decompose, element, names[k])) <==>
      exists k :: 0 <= k < |names[1..]| && Fails(tables, decompose, element, names[1..][k])
  {
    if exists k :: 0 <= k < |names| && Fails(tables, decompose, element, names[k]) {
      var k :| 0 <= k < |names| && Fails(tables, decompose, element, names[k]);
      assert names[1..][k - 1] == names[k];
    }
    if exists k :: 0 <= k < |names[1..]| && Fails(tables, decompose, element, names[1..][k]) {
      var k :| 0 <= k < |names[1..]| && Fails(tables, decompose, element, names[1..][k]);
      assert names[k + 1] == names[1..][k];
    }
  }

  lemma {:induction false} JobsStopIff(tables: Lookup.Tables, decompose: Decompose, jobs: seq<Job>, i: nat, p: Progress)
    requires i <= |jobs|
    ensures ProcessJobs(tables, decompose, jobs, i, p).Stopped? <==>
      exists j :: i <= j < |jobs| && JobFails(tables, decompose, jobs[j])
    decreases |jobs| - i
  {
    if i < |jobs| {
      NamesStopIff(tables, decompose, jobs[i].element, i, ClassNames(jobs[i]), p);
      var s := ProcessNames(tables, decompose, jobs[i].element, i, ClassNames(jobs[i]), p);
      JobsStep(tables, decompose, jobs, i, p);
      if s.Running? {
        JobsStopIff(tables, decompose, jobs, i + 1, s.progress);
        assert !JobFails(tables, decompose, jobs[i]);
        if exists j :: i <= j < |jobs| && JobFails(tables, decompose, jobs[j]) {
          var j :| i <= j < |jobs| && JobFails(tables, decompose, jobs[j]);
          assert j != i;
        }
      } else {
        assert JobFails(tables, decompose, jobs[i]);
      }
    }
  }

  /**
    A pass over a body that does not opt out completes exactly when no class
    name of any element throws, and is aborted otherwise.
   */
  lemma PassCompletesIffNothingThrows(tables: Lookup.Tables, decompose: Decompose, body: Body, initial: Buckets)
    requires !body.optedOut
    ensures Run(tables, decompose, Some(body), initial).Finished? <==>
      forall j :: 0 <= j < |body.jobs| ==> !JobFails(tables, decompose, body.jobs[j])
    ensures !Run(tables, decompose, Some(body), initial).Finished? ==> Run(tables, decompose, Some(body), initial).Aborted?
  {
    JobsStopIff(tables, decompose, body.jobs, 0, Progress(initial, [], []));
  }

  // ---------------------------------------------------------------------------
  // A second pass

  /** The buckets do not steer the pass: two starts with the same log of classes and rules end alike. */
  lemma {:induction false} NamesFrame(tables: Lookup.Tables, decompose: Decompose, element: Compiler.Element,
                                      index: nat, names: seq<string>, p: Progress, b: Buckets)
    ensures var r := ProcessNames(tables, decompose, element, index, names, p);
      var r' := ProcessNames(tables, decompose, element, index, names, p.(buckets := b));
      r.Running? == r'.Running? && r.progress.added == r'.progress.added && r.progress.rules == r'.progress.rules &&
      (r.Stopped? ==> r.failure == r'.failure)
    decreases |names|
  {
    if |names| > 0 {
      var s := ProcessName(tables, decompose, element, index, names[0], p);
      var s' := ProcessName(tables, decompose, element, index, names[0], p.(buckets := b));
      if s.Running? && s'.Running? {
        assert s'.progress == s.progress.(buckets := s'.progress.buckets);
        NamesFrame(tables, decompose, element, index, names[1..], s.progress, s'.progress.buckets);
      }
    }
  }

  lemma {:induction false} JobsFrame(tables: Lookup.Tables, decompose: Decompose, jobs: seq<Job>, i: nat,
                                     p: Progress, b: Buckets)
    requires i <= |jobs|
    ensures var r := ProcessJobs(tables, decompose, jobs, i, p);
      var r' := ProcessJobs(tables, decompose, jobs, i, p.(buckets := b));
      r.Running? == r'.Running? && r.progress.added == r'.progress.added && r.progress.rules == r'.progress.rules &&
      (r.Stopped? ==> r.failure == r'.failure)
    decreases |jobs| - i
  {
    if i < |jobs| {
      var names := ClassNames(jobs[i]);
      NamesFrame(tables, decompose, jobs[i].element, i, names, p, b);
      var s := ProcessNames(tables, decompose, jobs[i].element, i, names, p);
      var s' := ProcessNames(tables, decompose, jobs[i].element, i, names, p.(buckets := b));
      if s.Running? {
        assert s'.progress == s.progress.(buckets := s'.progress.buckets);
        JobsFrame(tables, decompose, jobs, i + 1, s.progress, s'.progress.buckets);
      }
    }
  }

  /** Buckets that already hold every rule a loop compiles come out of it unchanged. */
  lemma {:induction false} NamesStable(tables: Lookup.Tables, decompose: Decompose, element: Compiler.Element,
                                       index: nat, names: seq<string>, p: Progress)
    requires Covers(p.buckets, ProcessNames(tables, decompose, element, index, names, p).progress.rules)
    ensures ProcessNames(tables, decompose, element, index, names, p).progress.buckets == p.buckets
    decreases |names|
  {
    if |names| > 0 {
      var s := ProcessName(tables, decompose, element, index, names[0], p);
      if s.Running? {
        var last := ProcessNames(tables, decompose, element, index, names[1..], s.progress);
        if s.progress != p {
          var rule := s.progress.rules[|p.rules|];
          assert rule in s.progress.rules;
          assert s.progress.buckets == Route(p.buckets, rule);
          assert s.progress.buckets == p.buckets;
        }
        assert forall x :: x in s.progress.rules ==> x in p.rules || x in last.progress.rules;
        NamesStable(tables, decompose, element, index, names[1..], s.progress);
      }
    }
  }

  /** One element of the outer loop: a stop ends it, otherwise it carries on from the next element. */
  lemma JobsStep(tables: Lookup.Tables, decompose: Decompose, jobs: seq<Job>, i: nat, p: Progress)
    requires i < |jobs|
    ensures var s := ProcessNames(tables, decompose, jobs[i].element, i, ClassNames(jobs[i]), p);
      ProcessJobs(tables, decompose, jobs, i, p) ==
        if s.Running? then ProcessJobs(tables, decompose, jobs, i + 1, s.progress) else s
  {
  }

  /** Buckets that hold every rule of a log hold every rule of its prefixes. */
  lemma CoversPrefix(b: Buckets, a: seq<string>, c: seq<string>)
    requires a <= c && Covers(b, c)
    ensures Covers(b, a)
  {
    forall x | x in a ensures x in c {
      var k :| 0 <= k < |a| && a[k] == x;
      assert c[k] == x;
    }
  }

  /** Buckets that already hold every rule a loop compiles come out of it unchanged. */
  lemma {:induction false} JobsStable(tables: Lookup.Tables, decompose: Decompose, jobs: seq<Job>, i: nat, p: Progress)
    requires i <= |jobs|
    requires Covers(p.buckets, ProcessJobs(tables, decompose, jobs, i, p).progress.rules)
    ensures ProcessJobs(tables, decompose, jobs, i, p).progress.buckets == p.buckets
    decreases |jobs| - i
  {
    if i < |jobs| {
      var names := ClassNames(jobs[i]);
      var s := ProcessNames(tables, decompose, jobs[i].element, i, names, p);
      var r := ProcessJobs(tables, decompose, jobs, i, p);
      JobsStep(tables, decompose, jobs, i, p);
      CoversPrefix(p.buckets, s.progress.rules, r.progress.rules);
      NamesStable(tables, decompose, jobs[i].element, i, names, p);
      if s.Running? {
        JobsStable(tables, decompose, jobs, i + 1, s.progress);
      }
    }
  }

  /**
    Running the pass again over the buckets a completed pass left behind
    compiles the same rules and adds the same classes, pushes nothing new, and
    appends the whole of both buckets to the style element once more.

    The rerun reads the same page. In the browser the elements would also
    carry the classes the first pass added; those never start with `lcs`, so
    the class-name grammar skips them, but this lemma holds for any `decompose`
    and does not model them.
   */
  lemma SecondPass(tables: Lookup.Tables, decompose: Decompose, body: Body, initial: Buckets)
    requires WellRouted(initial)
    requires Run(tables, decompose, Some(body), initial).Finished?
    ensures var first := Run(tables, decompose, Some(body), initial);
      Run(tables, decompose, Some(body), first.buckets) ==
        Finished(first.buckets, first.added, first.rules, first.buckets.regular + first.buckets.media)
  {
    var first := Run(tables, decompose, Some(body), initial);
    BucketsAccount(tables, decompose, body, initial);
    var p := Progress(initial, [], []);
    JobsFrame(tables, decompose, body.jobs, 0, p, first.buckets);
    var q := p.(buckets := first.buckets);
    var second := ProcessJobs(tables, decompose, body.jobs, 0, q);
    assert second.progress.rules == first.rules;
    JobsStable(tables, decompose, body.jobs, 0, q);
  }
}
