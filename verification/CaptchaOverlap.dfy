/**
  Captcha attempts that overlap: an attempt first reads the stored answer, then
  deletes it, and is judged last, and other attempts may come in between. Only
  the read decides whether it is judged at all.
*/
module CaptchaOverlap {
  import opened Captcha

  /** What an attempt knows once it has read a held answer. */
  datatype Got = Got(c: Challenge, answer: Answer, response: Response)

  datatype Made = Made(answer: Answer, at: int)

  /**
    Attempts are numbered. `started`: has read; `got`: and found an answer; `tried`: has tried the delete; `judged`: has
    its verdict; `kept`: and a token for it could be stored.
  */
  datatype State = State(
    answers: map<Challenge, Made>,
    generated: map<Challenge, Made>,
    burned: set<Challenge>,
    started: set<nat>,
    got: map<nat, Got>,
    tried: set<nat>,
    judged: set<nat>,
    kept: set<nat>,
    issued: map<nat, string>)

  datatype Event =
    | Generate(c: Challenge, answer: Answer, now: int)
    | Read(a: nat, c: Challenge, response: Response, now: int)
    | Delete(a: nat, ok: bool)
    | Judge(a: nat, token: string, storeOk: bool)

  const NOTHING := State(map[], map[], {}, {}, map[], {}, {}, {}, map[])

  predicate CanTake(s: State, e: Event) {
    match e
    case Generate(c, _, _) => c !in s.generated
    case Read(a, _, _, _) => a !in s.started
    case Delete(a, _) => a in s.got && a !in s.tried
    case Judge(a, _, _) => a in s.tried && a in s.got && a !in s.judged
  }

  function Apply(g: Geometry, s: State, e: Event): State {
    match e
    case Generate(c, answer, now) =>
      s.(answers := s.answers[c := Made(answer, now)], generated := s.generated[c := Made(answer, now)])
    case Read(a, c, response, now) =>
      var t := s.(started := s.started + {a});
      if c in s.answers && now < s.answers[c].at + CAPTCHA_EXPIRY
      then t.(got := s.got[a := Got(c, s.answers[c].answer, response)]) else t
    case Delete(a, ok) =>
      var t := s.(tried := s.tried + {a});
      if ok && a in s.got then t.(answers := s.answers - {s.got[a].c}, burned := s.burned + {s.got[a].c}) else t
    case Judge(a, token, storeOk) =>
      var t := s.(judged := s.judged + {a}, kept := if storeOk then s.kept + {a} else s.kept);
      if a in s.got && Correct(g, s.got[a].answer, s.got[a].response) && storeOk
      then t.(issued := s.issued[a := token]) else t
  }

  function After(g: Geometry, events: seq<Event>): State {
    if events == [] then NOTHING
    else Apply(g, After(g, events[..|events| - 1]), events[|events| - 1])
  }

  ghost predicate IsRun(g: Geometry, events: seq<Event>) {
    forall i: nat | i < |events| :: CanTake(After(g, events[..i]), events[i])
  }

  lemma AfterStep(g: Geometry, events: seq<Event>, i: nat)
    requires i < |events|
    ensures After(g, events[..i + 1]) == Apply(g, After(g, events[..i]), events[i])
  {
    assert events[..i + 1][..i] == events[..i];
  }

  /** Event i is a delete that succeeds, by an attempt on this challenge. */
  ghost predicate DeletedAt(g: Geometry, events: seq<Event>, i: nat, c: Challenge)
    requires i < |events|
  {
    events[i].Delete? && events[i].ok &&
    var s := After(g, events[..i]); events[i].a in s.got && s.got[events[i].a].c == c
  }

  ghost predicate DeletedBefore(g: Geometry, events: seq<Event>, n: nat, c: Challenge)
    requires n <= |events|
  {
    exists i: nat :: i < n && DeletedAt(g, events, i, c)
  }

  lemma DeletedBeforeStep(g: Geometry, events: seq<Event>, n: nat, c: Challenge)
    requires n < |events|
    ensures DeletedBefore(g, events, n + 1, c) <==> DeletedBefore(g, events, n, c) || DeletedAt(g, events, n, c)
  {
  }

  /**
    Attempts have read what was generated; what was generated is stored until it is burned; and those attempts have a
    token that were right and for which one could be stored.
  */
  ghost predicate Ok(g: Geometry, s: State) {
    (forall a | a in s.got ::
       a in s.started && s.got[a].c in s.generated && s.got[a].answer == s.generated[s.got[a].c].answer) &&
    (forall c | c in s.answers :: c in s.generated && s.answers[c] == s.generated[c]) &&
    (forall c | c in s.generated :: c in s.answers <==> c !in s.burned) &&
    s.burned <= s.generated.Keys && s.tried <= s.got.Keys && s.kept <= s.judged <= s.tried &&
    (forall a | a in s.issued :: a in s.kept) &&
    (forall a | a in s.kept && a in s.got :: a in s.issued <==> Correct(g, s.got[a].answer, s.got[a].response))
  }

  lemma GenerateOk(g: Geometry, s: State, c: Challenge, answer: Answer, now: int)
    requires Ok(g, s) && CanTake(s, Event.Generate(c, answer, now))
    ensures Ok(g, Apply(g, s, Event.Generate(c, answer, now)))
  {
  }

  lemma ReadOk(g: Geometry, s: State, a: nat, c: Challenge, response: Response, now: int)
    requires Ok(g, s) && CanTake(s, Read(a, c, response, now))
    ensures Ok(g, Apply(g, s, Read(a, c, response, now)))
  {
  }

  lemma DeleteOk(g: Geometry, s: State, a: nat, ok: bool)
    requires Ok(g, s) && CanTake(s, Delete(a, ok))
    ensures Ok(g, Apply(g, s, Delete(a, ok)))
  {
  }

  lemma JudgeOk(g: Geometry, s: State, a: nat, token: string, storeOk: bool)
    requires Ok(g, s) && CanTake(s, Judge(a, token, storeOk))
    ensures Ok(g, Apply(g, s, Judge(a, token, storeOk)))
  {
  }

  lemma ApplyOk(g: Geometry, s: State, e: Event)
    requires Ok(g, s) && CanTake(s, e)
    ensures Ok(g, Apply(g, s, e))
  {
    match e
    case Generate(c, answer, now) => GenerateOk(g, s, c, answer, now);
    case Read(a, c, response, now) => ReadOk(g, s, a, c, response, now);
    case Delete(a, ok) => DeleteOk(g, s, a, ok);
    case Judge(a, token, storeOk) => JudgeOk(g, s, a, token, storeOk);
  }

  lemma {:induction false} RunOk(g: Geometry, events: seq<Event>, n: nat)
    requires IsRun(g, events) && n <= |events|
    ensures Ok(g, After(g, events[..n]))
  {
    if n == 0 {
    } else {
      RunOk(g, events, n - 1);
      assert CanTake(After(g, events[..n - 1]), events[n - 1]);
      ApplyOk(g, After(g, events[..n - 1]), events[n - 1]);
      AfterStep(g, events, n - 1);
    }
  }

  lemma BurnedStep(g: Geometry, events: seq<Event>, n: nat, c: Challenge)
    requires n < |events|
    ensures c in After(g, events[..n + 1]).burned <==> c in After(g, events[..n]).burned || DeletedAt(g, events, n, c)
  {
    AfterStep(g, events, n);
  }

  /** A challenge is burned from the first delete on it that succeeds. */
  lemma {:induction false} BurnedIff(g: Geometry, events: seq<Event>, n: nat, c: Challenge)
    requires n <= |events|
    ensures c in After(g, events[..n]).burned <==> DeletedBefore(g, events, n, c)
  {
    if n == 0 {
    } else {
      BurnedIff(g, events, n - 1, c);
      BurnedStep(g, events, n - 1, c);
      DeletedBeforeStep(g, events, n - 1, c);
    }
  }

  /** The challenge was there, less than three minutes old, when event k read it, and no delete had succeeded. */
  ghost predicate InTime(g: Geometry, events: seq<Event>, k: nat)
    requires k < |events| && events[k].Read?
  {
    var s, c := After(g, events[..k]), events[k].c;
    c in s.generated && events[k].now < s.generated[c].at + 180 && !DeletedBefore(g, events, k, c)
  }

  /** What an attempt has read is settled once it has started. */
  predicate SameRead(s: State, t: State, a: nat) {
    a in t.started && (a in t.got <==> a in s.got) && (a in s.got ==> t.got[a] == s.got[a])
  }

  lemma ApplySameRead(g: Geometry, s: State, e: Event, a: nat)
    requires CanTake(s, e) && a in s.started
    ensures SameRead(s, Apply(g, s, e), a)
  {
  }

  lemma SameReadTwice(s: State, t: State, u: State, a: nat)
    requires SameRead(s, t, a) && SameRead(t, u, a)
    ensures SameRead(s, u, a)
  {
  }

  lemma {:induction false} GotStays(g: Geometry, events: seq<Event>, k: nat, n: nat)
    requires IsRun(g, events) && k < n <= |events| && events[k].Read?
    ensures SameRead(After(g, events[..k + 1]), After(g, events[..n]), events[k].a)
  {
    if n == k + 1 {
      AfterStep(g, events, k);
    } else {
      var before := After(g, events[..n - 1]);
      GotStays(g, events, k, n - 1);
      assert CanTake(before, events[n - 1]);
      ApplySameRead(g, before, events[n - 1], events[k].a);
      AfterStep(g, events, n - 1);
      SameReadTwice(After(g, events[..k + 1]), before, After(g, events[..n]), events[k].a);
    }
  }

  /** Exactly when an attempt gets past its read: nothing that happens later matters, its own delete included. */
  lemma ReadIff(g: Geometry, events: seq<Event>, k: nat, n: nat)
    requires IsRun(g, events) && k < n <= |events| && events[k].Read?
    ensures var s, a := After(g, events[..n]), events[k].a;
            (a in s.got <==> InTime(g, events, k)) &&
            (a in s.got ==>
               s.got[a] == Got(events[k].c, After(g, events[..k]).generated[events[k].c].answer, events[k].response))
  {
    var c := events[k].c;
    BurnedIff(g, events, k, c);
    RunOk(g, events, k);
    assert CanTake(After(g, events[..k]), events[k]);
    AfterStep(g, events, k);
    GotStays(g, events, k, n);
  }

  /** Event m gives attempt a its verdict, and storing the token succeeds. */
  predicate Judges(events: seq<Event>, m: nat, a: nat)
    requires m < |events|
  {
    events[m].Judge? && events[m].a == a && events[m].storeOk
  }

  ghost predicate JudgedBefore(events: seq<Event>, n: nat, a: nat)
    requires n <= |events|
  {
    exists m: nat :: m < n && Judges(events, m, a)
  }

  lemma JudgedBeforeStep(events: seq<Event>, n: nat, a: nat)
    requires n < |events|
    ensures JudgedBefore(events, n + 1, a) <==> JudgedBefore(events, n, a) || Judges(events, n, a)
  {
  }

  lemma KeptStep(g: Geometry, events: seq<Event>, n: nat, a: nat)
    requires n < |events|
    ensures a in After(g, events[..n + 1]).kept <==> a in After(g, events[..n]).kept || Judges(events, n, a)
  {
    AfterStep(g, events, n);
  }

  lemma {:induction false} KeptIff(g: Geometry, events: seq<Event>, n: nat, a: nat)
    requires n <= |events|
    ensures a in After(g, events[..n]).kept <==> JudgedBefore(events, n, a)
  {
    if n == 0 {
    } else {
      KeptIff(g, events, n - 1, a);
      KeptStep(g, events, n - 1, a);
      JudgedBeforeStep(events, n - 1, a);
    }
  }

  /** The attempt that read at event k has been judged right, with a token that could be stored. */
  ghost predicate Passed(g: Geometry, events: seq<Event>, k: nat, n: nat)
    requires k < n <= |events| && events[k].Read?
  {
    var s, c := After(g, events[..k]), events[k].c;
    c in s.generated && Correct(g, s.generated[c].answer, events[k].response) && JudgedBefore(events, n, events[k].a)
  }

  lemma TokenIff(g: Geometry, events: seq<Event>, k: nat, n: nat)
    requires IsRun(g, events) && k < n <= |events| && events[k].Read?
    ensures events[k].a in After(g, events[..n]).issued <==> InTime(g, events, k) && Passed(g, events, k, n)
  {
    ReadIff(g, events, k, n);
    RunOk(g, events, n);
    KeptIff(g, events, n, events[k].a);
  }

  /**
    Exactly when two attempts on one challenge both have a token: both read in time, no delete of any attempt had
    succeeded before the later of the two reads, and both were judged right. Whether their own deletes succeed plays no
    part once both have read.
  */
  lemma TwoTokensIff(g: Geometry, events: seq<Event>, k: nat, l: nat, n: nat)
    requires IsRun(g, events) && k < l < n <= |events| && events[k].Read? && events[l].Read?
    requires events[k].c == events[l].c
    ensures var s := After(g, events[..n]);
            events[k].a in s.issued && events[l].a in s.issued <==>
            InTime(g, events, k) && InTime(g, events, l) && Passed(g, events, k, n) && Passed(g, events, l, n)
  {
    TokenIff(g, events, k, n);
    TokenIff(g, events, l, n);
  }

  /** Attempts that do not overlap: once one of them has deleted the answer, no later read gives a token. */
  lemma NoTokenAfterDelete(g: Geometry, events: seq<Event>, i: nat, l: nat, n: nat)
    requires IsRun(g, events) && i < l < n <= |events| && events[l].Read? && DeletedAt(g, events, i, events[l].c)
    ensures events[l].a !in After(g, events[..n]).issued
  {
    TokenIff(g, events, l, n);
  }

  lemma Extend(g: Geometry, events: seq<Event>, e: Event)
    requires IsRun(g, events) && CanTake(After(g, events), e)
    ensures IsRun(g, events + [e]) && After(g, events + [e]) == Apply(g, After(g, events), e)
  {
    var all := events + [e];
    forall i: nat | i < |all|
      ensures CanTake(After(g, all[..i]), all[i])
    {
      if i < |events| {
        assert all[..i] == events[..i] && CanTake(After(g, events[..i]), events[i]);
      } else {
        assert all[..i] == events;
      }
    }
    assert all[..|all| - 1] == events;
  }

  lemma BothRead(g: Geometry, c: Challenge, answer: Answer, response: Response) returns (events: seq<Event>)
    ensures events == [Event.Generate(c, answer, 0), Read(0, c, response, 1), Read(1, c, response, 1)]
    ensures IsRun(g, events)
    ensures var got := Got(c, answer, response);
            After(g, events) == State(map[c := Made(answer, 0)], map[c := Made(answer, 0)], {}, {0, 1},
                                      map[0 := got, 1 := got], {}, {}, {}, map[])
  {
    Extend(g, [], Event.Generate(c, answer, 0));
    events := [] + [Event.Generate(c, answer, 0)];
    Extend(g, events, Read(0, c, response, 1));
    events := events + [Read(0, c, response, 1)];
    Extend(g, events, Read(1, c, response, 1));
    events := events + [Read(1, c, response, 1)];
  }

  /** Two attempts that both read before either deletes: both deletes succeed, and both attempts get a token. */
  lemma OverlapGivesTwoTokens(g: Geometry, c: Challenge, answer: Answer, response: Response)
    requires Correct(g, answer, response)
    ensures var events := [Event.Generate(c, answer, 0), Read(0, c, response, 1), Read(1, c, response, 1)] +
                          [Delete(0, true)] + [Delete(1, true)] + [Judge(0, "x", true)] + [Judge(1, "y", true)];
            IsRun(g, events) && 0 in After(g, events).issued && 1 in After(g, events).issued
  {
    var events := BothRead(g, c, answer, response);
    Extend(g, events, Delete(0, true));
    events := events + [Delete(0, true)];
    Extend(g, events, Delete(1, true));
    events := events + [Delete(1, true)];
    Extend(g, events, Judge(0, "x", true));
    events := events + [Judge(0, "x", true)];
    Extend(g, events, Judge(1, "y", true));
  }
}
