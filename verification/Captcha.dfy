/**
  The captcha ledger: challenges of three kinds whose stored answer every
  attempt tries to remove, and tokens that an atomic delete consumes. Fresh ids,
  the geometry of an answer, readings of the clock and the success of each
  delete and store are inputs; times are seconds. The ledger keeps, besides what
  Redis holds, the history of challenges and tokens.
*/
module Captcha {
  import opened Counting

  const CAPTCHA_EXPIRY := 3 * 60
  const TOKEN_EXPIRY := 5 * 60

  datatype Dot = Dot(x: int, y: int, width: int, height: int)
  datatype Point = Point(x: int, y: int)

  datatype Kind = Slide | Click | Rotate
  datatype Answer = SlideAnswer(x: int, y: int) | ClickAnswer(dots: map<int, Dot>) | RotateAnswer(angle: int)
  datatype Response = SlideResponse(x: int, y: int) | ClickResponse(points: seq<Point>) | RotateResponse(angle: int)

  /** The geometric tests of the captcha library, with the padding as last argument. */
  datatype Geometry = Geometry(
    slide: (int, int, int, int, int) -> bool,
    click: (Point, Dot, int) -> bool,
    rotate: (int, int, int) -> bool)

  type Challenge = (Kind, string)

  datatype Stored = Stored(answer: Answer, expiresAt: int)

  datatype Origin = Origin(challenge: Challenge, at: int)

  datatype Ledger = Ledger(
    answers: map<Challenge, Stored>,
    tokens: map<string, int>,
    generated: map<Challenge, int>,
    burned: set<Challenge>,
    failed: nat,
    issued: map<string, Origin>,
    consumed: set<string>)

  const EMPTY := Ledger(map[], map[], map[], {}, 0, map[], {})

  datatype Verdict = Expired | Invalid | InternalError | Issued(token: string)

  predicate Held(l: Ledger, c: Challenge, now: int) {
    c in l.answers && now < l.answers[c].expiresAt
  }

  predicate Correct(g: Geometry, answer: Answer, response: Response) {
    match (answer, response)
    case (SlideAnswer(tx, ty), SlideResponse(x, y)) => g.slide(x, y, tx, ty, 5)
    case (ClickAnswer(dots), ClickResponse(points)) =>
      |points| == |dots| && forall i | 0 <= i < |points| :: i in dots && g.click(points[i], dots[i], 15)
    case (RotateAnswer(t), RotateResponse(a)) => g.rotate(a, t, 5)
    case _ => false
  }

  // ----- the three operations on the ledger

  function Generated(l: Ledger, c: Challenge, answer: Answer, now: int): Ledger {
    l.(answers := l.answers[c := Stored(answer, now + CAPTCHA_EXPIRY)], generated := l.generated[c := now])
  }

  function VerdictOf(l: Ledger, g: Geometry, c: Challenge, response: Response, now: int, token: string, storeOk: bool)
    : Verdict
  {
    if !Held(l, c, now) then Expired
    else if !Correct(g, l.answers[c].answer, response) then Invalid
    else if !storeOk then InternalError
    else Issued(token)
  }

  /** An attempt removes the answer; when the delete fails that is only logged, and `failed` counts it. */
  function Attempted(l: Ledger, c: Challenge, deleteOk: bool): Ledger {
    if deleteOk then l.(answers := l.answers - {c}, burned := l.burned + {c}) else l.(failed := l.failed + 1)
  }

  function WithToken(l: Ledger, c: Challenge, token: string, now: int): Ledger {
    l.(tokens := l.tokens[token := now + TOKEN_EXPIRY], issued := l.issued[token := Origin(c, now)])
  }

  /** Right or wrong, an attempt on a held challenge tries to remove the answer before it is judged. */
  function Validated(l: Ledger, g: Geometry, c: Challenge, response: Response, now: int, token: string, deleteOk: bool,
                     storeOk: bool): Ledger
  {
    var tried := if Held(l, c, now) then Attempted(l, c, deleteOk) else l;
    if VerdictOf(l, g, c, response, now, token, storeOk).Issued?
    then WithToken(tried, c, token, now) else tried
  }

  predicate TokenHeld(l: Ledger, token: string, now: int) {
    token in l.tokens && now < l.tokens[token]
  }

  function Consumed(l: Ledger, token: string, now: int): Ledger {
    if TokenHeld(l, token, now) then l.(tokens := l.tokens - {token}, consumed := l.consumed + {token}) else l
  }

  // ----- whole runs

  datatype Event =
    | Generate(c: Challenge, answer: Answer, now: int)
    | Validate(c: Challenge, response: Response, now: int, token: string, deleteOk: bool, storeOk: bool)
    | Consume(token: string, now: int)

  function Apply(g: Geometry, l: Ledger, e: Event): Ledger {
    match e
    case Generate(c, answer, now) => Generated(l, c, answer, now)
    case Validate(c, response, now, token, deleteOk, storeOk) =>
      Validated(l, g, c, response, now, token, deleteOk, storeOk)
    case Consume(token, now) => Consumed(l, token, now)
  }

  function After(g: Geometry, events: seq<Event>): Ledger {
    if events == [] then EMPTY
    else Apply(g, After(g, events[..|events| - 1]), events[|events| - 1])
  }

  /** A generated id is one that was never used before. */
  predicate UsesFreshId(l: Ledger, e: Event) {
    (e.Generate? ==> e.c !in l.generated) && (e.Validate? ==> e.token !in l.issued)
  }

  ghost predicate FreshIds(g: Geometry, events: seq<Event>) {
    forall i: nat | i < |events| :: UsesFreshId(After(g, events[..i]), events[i])
  }

  /** A generated challenge is stored, for three minutes, until it is burned. */
  ghost predicate AnswersOk(l: Ledger) {
    (forall c | c in l.answers ::
       c in l.generated && c !in l.burned && l.answers[c].expiresAt == l.generated[c] + 180) &&
    l.burned <= l.generated.Keys &&
    (forall c | c in l.generated :: c in l.answers || c in l.burned)
  }

  /** Tokens come from young challenges, at most one for each that was burned or whose delete failed. */
  ghost predicate IssuedOk(l: Ledger) {
    (forall t | t in l.issued ::
       var o := l.issued[t]; o.challenge in l.generated && o.at < l.generated[o.challenge] + 180) &&
    |l.issued.Keys| <= |l.burned| + l.failed
  }

  /** An issued token is stored, for five minutes, until it is consumed. */
  ghost predicate TokensOk(l: Ledger) {
    (forall t | t in l.tokens :: t in l.issued && t !in l.consumed && l.tokens[t] == l.issued[t].at + 300) &&
    (forall t | t in l.issued :: t in l.tokens || t in l.consumed) &&
    l.consumed <= l.issued.Keys
  }

  ghost predicate LedgerOk(l: Ledger) {
    AnswersOk(l) && IssuedOk(l) && TokensOk(l)
  }

  /** An attempt leaves the ledger in order, with room for one more token. */
  lemma AttemptedOk(l: Ledger, c: Challenge, deleteOk: bool, now: int)
    requires LedgerOk(l) && Held(l, c, now)
    ensures LedgerOk(Attempted(l, c, deleteOk))
    ensures |l.issued.Keys| < |Attempted(l, c, deleteOk).burned| + Attempted(l, c, deleteOk).failed
  {
    assert deleteOk ==> |Attempted(l, c, deleteOk).burned| == |l.burned| + 1;
  }

  lemma WithTokenOk(l: Ledger, c: Challenge, token: string, now: int)
    requires LedgerOk(l) && token !in l.issued && |l.issued.Keys| < |l.burned| + l.failed
    requires c in l.generated && now < l.generated[c] + CAPTCHA_EXPIRY
    ensures LedgerOk(WithToken(l, c, token, now))
  {
    assert WithToken(l, c, token, now).issued.Keys == l.issued.Keys + {token};
  }

  lemma GeneratedOk(l: Ledger, c: Challenge, answer: Answer, now: int)
    requires LedgerOk(l) && c !in l.generated
    ensures LedgerOk(Generated(l, c, answer, now))
  {
  }

  lemma ConsumedOk(l: Ledger, token: string, now: int)
    requires LedgerOk(l)
    ensures LedgerOk(Consumed(l, token, now))
  {
  }

  lemma ValidatedOk(g: Geometry, l: Ledger, c: Challenge, response: Response, now: int, token: string, deleteOk: bool,
                    storeOk: bool)
    requires LedgerOk(l) && token !in l.issued
    ensures LedgerOk(Validated(l, g, c, response, now, token, deleteOk, storeOk))
  {
    if Held(l, c, now) {
      AttemptedOk(l, c, deleteOk, now);
      WithTokenOk(Attempted(l, c, deleteOk), c, token, now);
    }
  }

  lemma ApplyOk(g: Geometry, l: Ledger, e: Event)
    requires LedgerOk(l) && UsesFreshId(l, e)
    ensures LedgerOk(Apply(g, l, e))
  {
    match e
    case Generate(c, answer, now) => GeneratedOk(l, c, answer, now);
    case Consume(token, now) => ConsumedOk(l, token, now);
    case Validate(c, response, now, token, deleteOk, storeOk) =>
      ValidatedOk(g, l, c, response, now, token, deleteOk, storeOk);
  }

  lemma AfterStep(g: Geometry, events: seq<Event>, i: nat)
    requires i < |events|
    ensures After(g, events[..i + 1]) == Apply(g, After(g, events[..i]), events[i])
  {
    assert events[..i + 1][..i] == events[..i];
  }

  /** The ledger is in order after any number of the events. */
  lemma {:induction false} RunOk(g: Geometry, events: seq<Event>, n: nat)
    requires FreshIds(g, events) && n <= |events|
    ensures LedgerOk(After(g, events[..n]))
  {
    if n == 0 {
    } else {
      RunOk(g, events, n - 1);
      assert UsesFreshId(After(g, events[..n - 1]), events[n - 1]);
      ApplyOk(g, After(g, events[..n - 1]), events[n - 1]);
      AfterStep(g, events, n - 1);
    }
  }

  /**
    Consumed tokens are at most issued tokens, which are at most burned challenges plus failed deletes; burned
    challenges are at most generated ones. So with all deletes succeeding the four are in order.
  */
  lemma LedgerCounts(g: Geometry, events: seq<Event>)
    requires FreshIds(g, events)
    ensures var l := After(g, events);
            |l.consumed| <= |l.issued.Keys| <= |l.burned| + l.failed && |l.burned| <= |l.generated.Keys|
    ensures (forall i | 0 <= i < |events| && events[i].Validate? :: events[i].deleteOk) ==> After(g, events).failed == 0
  {
    RunOk(g, events, |events|);
    assert events[..|events|] == events;
    var l := After(g, events);
    SubsetSize(l.consumed, l.issued.Keys);
    SubsetSize(l.burned, l.generated.Keys);
    if forall i | 0 <= i < |events| && events[i].Validate? :: events[i].deleteOk {
      NoneFailed(g, events, |events|);
    }
  }

  lemma {:induction false} NoneFailed(g: Geometry, events: seq<Event>, n: nat)
    requires n <= |events| && forall i | 0 <= i < |events| && events[i].Validate? :: events[i].deleteOk
    ensures After(g, events[..n]).failed == 0
  {
    if n == 0 {
    } else {
      NoneFailed(g, events, n - 1);
      AfterStep(g, events, n - 1);
    }
  }

  /** What was generated, burned, issued or consumed stays so, and a stored answer is never exchanged. */
  ghost predicate Grows(l: Ledger, k: Ledger) {
    l.burned <= k.burned && l.consumed <= k.consumed &&
    (forall t | t in l.issued :: t in k.issued && k.issued[t] == l.issued[t]) &&
    (forall c | c in l.generated :: c in k.generated && k.generated[c] == l.generated[c]) &&
    (forall c | c in l.generated && c in k.answers :: c in l.answers && k.answers[c] == l.answers[c])
  }

  lemma ApplyGrows(g: Geometry, l: Ledger, e: Event)
    requires UsesFreshId(l, e)
    ensures Grows(l, Apply(g, l, e))
  {
  }

  lemma GrowsOn(l: Ledger, k: Ledger, m: Ledger)
    requires Grows(l, k) && Grows(k, m)
    ensures Grows(l, m)
  {
  }

  lemma {:induction false} HistoryGrows(g: Geometry, events: seq<Event>, i: nat, j: nat)
    requires FreshIds(g, events) && i <= j <= |events|
    ensures Grows(After(g, events[..i]), After(g, events[..j]))
    decreases j
  {
    if i == j {
    } else {
      HistoryGrows(g, events, i, j - 1);
      assert UsesFreshId(After(g, events[..j - 1]), events[j - 1]);
      ApplyGrows(g, After(g, events[..j - 1]), events[j - 1]);
      AfterStep(g, events, j - 1);
      GrowsOn(After(g, events[..i]), After(g, events[..j - 1]), After(g, events[..j]));
    }
  }

  ghost function VerdictAt(g: Geometry, events: seq<Event>, i: nat): Verdict
    requires i < |events| && events[i].Validate?
  {
    var e := events[i];
    VerdictOf(After(g, events[..i]), g, e.c, e.response, e.now, e.token, e.storeOk)
  }

  /** An earlier attempt that found the challenge held and removed its answer. */
  ghost predicate BurnedAt(g: Geometry, events: seq<Event>, i: nat, c: Challenge)
    requires i < |events|
  {
    events[i].Validate? && events[i].c == c && events[i].deleteOk && VerdictAt(g, events, i) != Expired
  }

  ghost predicate BurnedBefore(g: Geometry, events: seq<Event>, n: nat, c: Challenge)
    requires n <= |events|
  {
    exists i: nat :: i < n && BurnedAt(g, events, i, c)
  }

  /** One more event burns at most what its own attempt burns. */
  lemma BurnedStep(g: Geometry, events: seq<Event>, n: nat, c: Challenge)
    requires FreshIds(g, events) && n < |events|
    ensures c in After(g, events[..n + 1]).burned <==> c in After(g, events[..n]).burned || BurnedAt(g, events, n, c)
  {
    AfterStep(g, events, n);
  }

  lemma BurnedBeforeStep(g: Geometry, events: seq<Event>, n: nat, c: Challenge)
    requires n < |events|
    ensures BurnedBefore(g, events, n + 1, c) <==> BurnedBefore(g, events, n, c) || BurnedAt(g, events, n, c)
  {
  }

  lemma {:induction false} BurnedIff(g: Geometry, events: seq<Event>, n: nat, c: Challenge)
    requires FreshIds(g, events) && n <= |events|
    ensures c in After(g, events[..n]).burned <==> BurnedBefore(g, events, n, c)
  {
    if n == 0 {
    } else {
      BurnedIff(g, events, n - 1, c);
      BurnedStep(g, events, n - 1, c);
      BurnedBeforeStep(g, events, n - 1, c);
    }
  }

  /**
    Exactly when an attempt is judged at all: the challenge was generated less than three minutes ago, and the delete of
    every earlier attempt that was judged failed. For each of the three kinds.
  */
  lemma JudgedIff(g: Geometry, events: seq<Event>, j: nat)
    requires FreshIds(g, events) && j < |events| && events[j].Validate?
    ensures var l, c := After(g, events[..j]), events[j].c;
            VerdictAt(g, events, j) != Expired <==>
            c in l.generated && events[j].now < l.generated[c] + 180 && !BurnedBefore(g, events, j, c)
  {
    BurnedIff(g, events, j, events[j].c);
    RunOk(g, events, j);
  }

  /** The first attempt on a live challenge whose delete succeeds, right or wrong, is the last one judged. */
  lemma OneAttempt(g: Geometry, events: seq<Event>, i: nat, j: nat)
    requires FreshIds(g, events) && i < j < |events|
    requires events[i].Validate? && events[j].Validate? && events[i].c == events[j].c
    requires VerdictAt(g, events, i) != Expired && events[i].deleteOk
    ensures VerdictAt(g, events, j) == Expired
  {
    assert BurnedAt(g, events, i, events[j].c);
    JudgedIff(g, events, j);
  }

  /** A second token for a challenge needs a failed delete at every earlier one; if none fails there is only one. */
  lemma OneTokenPerChallenge(g: Geometry, events: seq<Event>, i: nat, j: nat)
    requires FreshIds(g, events) && i < j < |events|
    requires events[i].Validate? && events[j].Validate? && events[i].c == events[j].c
    requires VerdictAt(g, events, i).Issued? && VerdictAt(g, events, j).Issued?
    ensures !events[i].deleteOk
  {
    if events[i].deleteOk {
      OneAttempt(g, events, i, j);
      assert false;
    }
  }

  /** And a failed delete does give a second token to whoever repeats the right response within the three minutes. */
  lemma FailedDeleteRepeats(g: Geometry, events: seq<Event>, j: nat)
    requires FreshIds(g, events) && 0 < j < |events| && events[j - 1].Validate? && events[j].Validate?
    requires VerdictAt(g, events, j - 1).Issued? && !events[j - 1].deleteOk
    requires events[j].c == events[j - 1].c && events[j].response == events[j - 1].response && events[j].storeOk
    requires var l := After(g, events[..j]);
             events[j].c in l.generated && events[j].now < l.generated[events[j].c] + 180
    ensures VerdictAt(g, events, j) == Issued(events[j].token)
  {
    AfterStep(g, events, j - 1);
    RunOk(g, events, j);
  }

  /** No token is issued for a challenge that was not generated, or three minutes or more after it was. */
  lemma NoTokenWhenLate(g: Geometry, events: seq<Event>, i: nat)
    requires FreshIds(g, events) && i < |events| && events[i].Validate? && VerdictAt(g, events, i).Issued?
    ensures var l := After(g, events[..i]);
            events[i].c in l.generated && events[i].now < l.generated[events[i].c] + 180
  {
    RunOk(g, events, i);
  }

  predicate ConsumesAt(g: Geometry, events: seq<Event>, i: nat, token: string)
    requires i < |events|
  {
    events[i].Consume? && events[i].token == token && TokenHeld(After(g, events[..i]), token, events[i].now)
  }

  /** In whatever order consumers come, a token is consumed at most once, and only after it was issued. */
  lemma ConsumedOnce(g: Geometry, events: seq<Event>, i: nat, j: nat, token: string)
    requires FreshIds(g, events) && i <= j < |events|
    requires ConsumesAt(g, events, i, token) && ConsumesAt(g, events, j, token)
    ensures i == j && token in After(g, events[..i]).issued
  {
    RunOk(g, events, i);
    RunOk(g, events, j);
    if i < j {
      AfterStep(g, events, i);
      HistoryGrows(g, events, i + 1, j);
    }
  }

  /** Event k generates challenge c. */
  predicate Makes(events: seq<Event>, k: nat, c: Challenge) {
    k < |events| && events[k].Generate? && events[k].c == c
  }

  /** The ledger knows a challenge by its one Generate event: its time, and its answer while one is stored. */
  ghost predicate KnownFrom(l: Ledger, e: Event) {
    e.Generate? && e.c in l.generated && l.generated[e.c] == e.now &&
    (e.c in l.answers ==> l.answers[e.c] == Stored(e.answer, e.now + 180))
  }

  lemma JustMade(g: Geometry, l: Ledger, e: Event)
    requires e.Generate?
    ensures KnownFrom(Apply(g, l, e), e)
  {
  }

  lemma MadeStays(g: Geometry, events: seq<Event>, k: nat, n: nat)
    requires FreshIds(g, events) && k < n <= |events| && events[k].Generate?
    ensures KnownFrom(After(g, events[..n]), events[k])
  {
    JustMade(g, After(g, events[..k]), events[k]);
    AfterStep(g, events, k);
    HistoryGrows(g, events, k + 1, n);
  }

  lemma {:induction false} MadeBy(g: Geometry, events: seq<Event>, n: nat, c: Challenge) returns (k: nat)
    requires n <= |events| && c in After(g, events[..n]).generated
    ensures k < n && Makes(events, k, c)
  {
    AfterStep(g, events, n - 1);
    if events[n - 1].Generate? && events[n - 1].c == c {
      k := n - 1;
    } else {
      k := MadeBy(g, events, n - 1, c);
    }
  }

  /** Event k issues the token. */
  ghost predicate IssuesAt(g: Geometry, events: seq<Event>, k: nat, token: string) {
    k < |events| && events[k].Validate? && VerdictAt(g, events, k) == Issued(token)
  }

  /**
    Exactly when an attempt gets a token: its challenge was generated less than three minutes ago, the response fits the
    answer that was generated with it, no earlier attempt removed the answer, and a token could be stored.
  */
  lemma IssuedIff(g: Geometry, events: seq<Event>, j: nat)
    requires FreshIds(g, events) && j < |events| && events[j].Validate?
    ensures VerdictAt(g, events, j) == Issued(events[j].token) <==>
            !BurnedBefore(g, events, j, events[j].c) && events[j].storeOk &&
            exists k: nat | k < j && Makes(events, k, events[j].c) ::
              events[j].now < events[k].now + 180 && Correct(g, events[k].answer, events[j].response)
  {
    var l, c := After(g, events[..j]), events[j].c;
    JudgedIff(g, events, j);
    if c in l.generated {
      var k := MadeBy(g, events, j, c);
      MadeStays(g, events, k, j);
    }
    forall k: nat | k < j && Makes(events, k, c)
      ensures KnownFrom(l, events[k])
    {
      MadeStays(g, events, k, j);
    }
  }

  /** One event changes which tokens are issued, and when, only by issuing its own. */
  lemma IssuedStep(g: Geometry, events: seq<Event>, n: nat, token: string)
    requires FreshIds(g, events) && n < |events|
    ensures var l, k := After(g, events[..n]), After(g, events[..n + 1]);
            (token in k.issued <==> token in l.issued || IssuesAt(g, events, n, token)) &&
            (token in l.issued ==> k.issued[token] == l.issued[token]) &&
            (IssuesAt(g, events, n, token) ==> k.issued[token] == Origin(events[n].c, events[n].now))
  {
    AfterStep(g, events, n);
    assert UsesFreshId(After(g, events[..n]), events[n]);
  }

  lemma {:induction false} IssuedBy(g: Geometry, events: seq<Event>, n: nat, token: string) returns (k: nat)
    requires FreshIds(g, events) && n <= |events| && token in After(g, events[..n]).issued
    ensures k < n && IssuesAt(g, events, k, token)
    ensures After(g, events[..n]).issued[token] == Origin(events[k].c, events[k].now)
  {
    IssuedStep(g, events, n - 1, token);
    if IssuesAt(g, events, n - 1, token) {
      k := n - 1;
    } else {
      k := IssuedBy(g, events, n - 1, token);
    }
  }

  lemma IssuedStays(g: Geometry, events: seq<Event>, k: nat, n: nat, token: string)
    requires FreshIds(g, events) && k < n <= |events| && IssuesAt(g, events, k, token)
    ensures var l := After(g, events[..n]);
            token in l.issued && l.issued[token] == Origin(events[k].c, events[k].now)
  {
    IssuedStep(g, events, k, token);
    HistoryGrows(g, events, k + 1, n);
  }

  ghost predicate ConsumedBefore(g: Geometry, events: seq<Event>, n: nat, token: string)
    requires n <= |events|
  {
    exists i: nat :: i < n && ConsumesAt(g, events, i, token)
  }

  lemma ConsumedStep(g: Geometry, events: seq<Event>, n: nat, token: string)
    requires n < |events|
    ensures token in After(g, events[..n + 1]).consumed <==>
            token in After(g, events[..n]).consumed || ConsumesAt(g, events, n, token)
    ensures ConsumedBefore(g, events, n + 1, token) <==>
            ConsumedBefore(g, events, n, token) || ConsumesAt(g, events, n, token)
  {
    AfterStep(g, events, n);
  }

  lemma {:induction false} ConsumedIff(g: Geometry, events: seq<Event>, n: nat, token: string)
    requires n <= |events|
    ensures token in After(g, events[..n]).consumed <==> ConsumedBefore(g, events, n, token)
  {
    if n == 0 {
    } else {
      ConsumedIff(g, events, n - 1, token);
      ConsumedStep(g, events, n - 1, token);
    }
  }

  /** Exactly when a token would be accepted: some attempt got it less than five minutes ago, and nobody consumed it. */
  lemma AcceptedIff(g: Geometry, events: seq<Event>, n: nat, token: string, now: int)
    requires FreshIds(g, events) && n <= |events|
    ensures TokenHeld(After(g, events[..n]), token, now) <==>
            !ConsumedBefore(g, events, n, token) &&
            exists k: nat | k < n && IssuesAt(g, events, k, token) :: now < events[k].now + 300
  {
    RunOk(g, events, n);
    ConsumedIff(g, events, n, token);
    if token in After(g, events[..n]).issued {
      var k := IssuedBy(g, events, n, token);
      assert IssuesAt(g, events, k, token);
    }
    forall k: nat | k < n && IssuesAt(g, events, k, token)
      ensures token in After(g, events[..n]).issued && After(g, events[..n]).issued[token].at == events[k].now
    {
      IssuedStays(g, events, k, n, token);
    }
  }

  /**
    A token that is accepted was earned: less than five minutes before it was given to an attempt whose response passes
    the geometric test of its kind against the answer generated for the challenge, less than three minutes after that.
  */
  lemma TokenWasEarned(g: Geometry, events: seq<Event>, j: nat, token: string) returns (k: nat, i: nat)
    requires FreshIds(g, events) && j < |events| && ConsumesAt(g, events, j, token)
    ensures k < i < j && events[k].Generate? && events[i].Validate? && events[i].c == events[k].c
    ensures events[i].token == token && events[j].now < events[i].now + 300 && events[i].now < events[k].now + 180
    ensures var answer, response := events[k].answer, events[i].response;
            || (answer.SlideAnswer? && response.SlideResponse? &&
                g.slide(response.x, response.y, answer.x, answer.y, 5))
            || (answer.ClickAnswer? && response.ClickResponse? && |response.points| == |answer.dots| &&
                forall n | 0 <= n < |response.points| ::
                  n in answer.dots && g.click(response.points[n], answer.dots[n], 15))
            || (answer.RotateAnswer? && response.RotateResponse? && g.rotate(response.angle, answer.angle, 5))
  {
    AcceptedIff(g, events, j, token, events[j].now);
    i :| i < j && IssuesAt(g, events, i, token) && events[j].now < events[i].now + 300;
    IssuedIff(g, events, i);
    k :| k < i && Makes(events, k, events[i].c) && events[i].now < events[k].now + 180 &&
         Correct(g, events[k].answer, events[i].response);
  }

  // ----- the service

  class CaptchaService {
    const geometry: Geometry
    var slides: map<string, (Point, int)>
    var clicks: map<string, (map<int, Dot>, int)>
    var rotates: map<string, (int, int)>
    var tokens: map<string, int>
    ghost var ledger: Ledger

    /** The ledger's answers and tokens are what the three answer stores and the token store hold. */
    ghost predicate Valid()
      reads this
    {
      ledger.tokens == tokens &&
      (forall id: string :: (Slide, id) in ledger.answers <==> id in slides) &&
      (forall id: string :: (Click, id) in ledger.answers <==> id in clicks) &&
      (forall id: string :: (Rotate, id) in ledger.answers <==> id in rotates) &&
      (forall id | id in slides ::
         ledger.answers[(Slide, id)] == Stored(SlideAnswer(slides[id].0.x, slides[id].0.y), slides[id].1)) &&
      (forall id | id in clicks :: ledger.answers[(Click, id)] == Stored(ClickAnswer(clicks[id].0), clicks[id].1)) &&
      (forall id | id in rotates :: ledger.answers[(Rotate, id)] == Stored(RotateAnswer(rotates[id].0), rotates[id].1))
    }

    constructor (geometry: Geometry)
      ensures Valid() && ledger == EMPTY && this.geometry == geometry
    {
      this.geometry := geometry;
      slides, clicks, rotates, tokens, ledger := map[], map[], map[], map[], EMPTY;
    }

    method GenerateSlide(id: string, x: int, y: int, now: int, drawn: bool, storeOk: bool) returns (ok: bool)
      requires Valid()
      modifies this
      ensures Valid() && ok == (drawn && storeOk)
      ensures slides == if ok then old(slides)[id := (Point(x, y), now + 180)] else old(slides)
      ensures ledger == if ok then Generated(old(ledger), (Slide, id), SlideAnswer(x, y), now) else old(ledger)
    {
      if !drawn || !storeOk {
        return false;
      }
      slides := slides[id := (Point(x, y), now + CAPTCHA_EXPIRY)];
      ledger := Generated(ledger, (Slide, id), SlideAnswer(x, y), now);
      ok := true;
    }

    method GenerateClick(id: string, dots: map<int, Dot>, now: int, drawn: bool, storeOk: bool) returns (ok: bool)
      requires Valid()
      modifies this
      ensures Valid() && ok == (drawn && storeOk)
      ensures clicks == if ok then old(clicks)[id := (dots, now + 180)] else old(clicks)
      ensures ledger == if ok then Generated(old(ledger), (Click, id), ClickAnswer(dots), now) else old(ledger)
    {
      if !drawn || !storeOk {
        return false;
      }
      clicks := clicks[id := (dots, now + CAPTCHA_EXPIRY)];
      ledger := Generated(ledger, (Click, id), ClickAnswer(dots), now);
      ok := true;
    }

    method GenerateRotate(id: string, angle: int, now: int, drawn: bool, storeOk: bool) returns (ok: bool)
      requires Valid()
      modifies this
      ensures Valid() && ok == (drawn && storeOk)
      ensures rotates == if ok then old(rotates)[id := (angle, now + 180)] else old(rotates)
      ensures ledger == if ok then Generated(old(ledger), (Rotate, id), RotateAnswer(angle), now) else old(ledger)
    {
      if !drawn || !storeOk {
        return false;
      }
      rotates := rotates[id := (angle, now + CAPTCHA_EXPIRY)];
      ledger := Generated(ledger, (Rotate, id), RotateAnswer(angle), now);
      ok := true;
    }

    method IssueToken(ghost c: Challenge, now: int, token: string, storeOk: bool) returns (v: Verdict)
      requires Valid()
      modifies this`tokens, this`ledger
      ensures Valid()
      ensures v == if storeOk then Issued(token) else InternalError
      ensures tokens == if storeOk then old(tokens)[token := now + 300] else old(tokens)
      ensures ledger == if storeOk
                        then old(ledger).(tokens := old(ledger).tokens[token := now + TOKEN_EXPIRY],
                                          issued := old(ledger).issued[token := Origin(c, now)])
                        else old(ledger)
    {
      if !storeOk {
        return InternalError;
      }
      tokens := tokens[token := now + TOKEN_EXPIRY];
      ledger := ledger.(tokens := tokens, issued := ledger.issued[token := Origin(c, now)]);
      v := Issued(token);
    }

    /** Whoever reads an answer deletes it before judging the attempt; a failed delete is logged. */
    method DeleteSlideAnswer(id: string, deleteOk: bool)
      requires Valid()
      modifies this`slides, this`ledger
      ensures Valid()
      ensures slides == if deleteOk then old(slides) - {id} else old(slides)
      ensures ledger == Attempted(old(ledger), (Slide, id), deleteOk)
    {
      if deleteOk {
        slides := slides - {id};
      }
      ledger := Attempted(ledger, (Slide, id), deleteOk);
    }

    method ValidateSlide(id: string, x: int, y: int, now: int, token: string, deleteOk: bool,
        storeOk: bool)
      returns (v: Verdict)
      requires Valid()
      modifies this
      ensures Valid()
      ensures v == Expired <==> id !in old(slides) || now >= old(slides)[id].1
      ensures v != Expired ==> (v == Invalid <==> !geometry.slide(x, y, old(slides)[id].0.x, old(slides)[id].0.y, 5))
      ensures v == Expired || v == Invalid || v == if storeOk then Issued(token) else InternalError
      ensures tokens == if v == Issued(token) then old(tokens)[token := now + 300] else old(tokens)
      ensures slides == if v != Expired && deleteOk then old(slides) - {id} else old(slides)
      ensures v == VerdictOf(old(ledger), geometry, (Slide, id), SlideResponse(x, y), now, token, storeOk)
      ensures ledger ==
              Validated(old(ledger), geometry, (Slide, id), SlideResponse(x, y), now, token, deleteOk, storeOk)
    {
      if id !in slides || now >= slides[id].1 {
        return Expired;
      }
      var target := slides[id].0;
      DeleteSlideAnswer(id, deleteOk);
      if !geometry.slide(x, y, target.x, target.y, 5) {
        return Invalid;
      }
      v := IssueToken((Slide, id), now, token, storeOk);
    }

    /** Whoever reads an answer deletes it before judging the attempt; a failed delete is logged. */
    method DeleteClickAnswer(id: string, deleteOk: bool)
      requires Valid()
      modifies this`clicks, this`ledger
      ensures Valid()
      ensures clicks == if deleteOk then old(clicks) - {id} else old(clicks)
      ensures ledger == Attempted(old(ledger), (Click, id), deleteOk)
    {
      if deleteOk {
        clicks := clicks - {id};
      }
      ledger := Attempted(ledger, (Click, id), deleteOk);
    }

    method ValidateClick(id: string, points: seq<Point>, now: int, token: string, deleteOk: bool,
        storeOk: bool)
      returns (v: Verdict)
      requires Valid()
      modifies this
      ensures Valid()
      ensures v == Expired <==> id !in old(clicks) || now >= old(clicks)[id].1
      ensures v != Expired ==>
              (v != Invalid <==>
               var dots := old(clicks)[id].0;
               |points| == |dots| &&
               forall i | 0 <= i < |points| :: i in dots && geometry.click(points[i], dots[i], 15))
      ensures v == Expired || v == Invalid || v == if storeOk then Issued(token) else InternalError
      ensures tokens == if v == Issued(token) then old(tokens)[token := now + 300] else old(tokens)
      ensures clicks == if v != Expired && deleteOk then old(clicks) - {id} else old(clicks)
      ensures v == VerdictOf(old(ledger), geometry, (Click, id), ClickResponse(points), now, token, storeOk)
      ensures ledger ==
              Validated(old(ledger), geometry, (Click, id), ClickResponse(points), now, token, deleteOk, storeOk)
    {
      if id !in clicks || now >= clicks[id].1 {
        return Expired;
      }
      var dots := clicks[id].0;
      DeleteClickAnswer(id, deleteOk);
      var ok := CheckDots(points, dots);
      assert ok <==> Correct(geometry, ClickAnswer(dots), ClickResponse(points));
      if !ok {
        return Invalid;
      }
      v := IssueToken((Click, id), now, token, storeOk);
    }

    /** As many dots as were asked for, and each one hits the target of its index. */
    method CheckDots(points: seq<Point>, dots: map<int, Dot>) returns (ok: bool)
      ensures ok <==>
              |points| == |dots| && forall i | 0 <= i < |points| :: i in dots && geometry.click(points[i], dots[i], 15)
    {
      if |points| != |dots| {
        return false;
      }
      var i := 0;
      while i < |points|
        invariant 0 <= i <= |points|
        invariant forall k | 0 <= k < i :: k in dots && geometry.click(points[k], dots[k], 15)
      {
        if i !in dots {
          return false;
        }
        if !geometry.click(points[i], dots[i], 15) {
          return false;
        }
        i := i + 1;
      }
      ok := true;
    }

    /** Whoever reads an answer deletes it before judging the attempt; a failed delete is logged. */
    method DeleteRotateAnswer(id: string, deleteOk: bool)
      requires Valid()
      modifies this`rotates, this`ledger
      ensures Valid()
      ensures rotates == if deleteOk then old(rotates) - {id} else old(rotates)
      ensures ledger == Attempted(old(ledger), (Rotate, id), deleteOk)
    {
      if deleteOk {
        rotates := rotates - {id};
      }
      ledger := Attempted(ledger, (Rotate, id), deleteOk);
    }

    method ValidateRotate(id: string, angle: int, now: int, token: string, deleteOk: bool,
        storeOk: bool)
      returns (v: Verdict)
      requires Valid()
      modifies this
      ensures Valid()
      ensures v == Expired <==> id !in old(rotates) || now >= old(rotates)[id].1
      ensures v != Expired ==> (v == Invalid <==> !geometry.rotate(angle, old(rotates)[id].0, 5))
      ensures v == Expired || v == Invalid || v == if storeOk then Issued(token) else InternalError
      ensures tokens == if v == Issued(token) then old(tokens)[token := now + 300] else old(tokens)
      ensures rotates == if v != Expired && deleteOk then old(rotates) - {id} else old(rotates)
      ensures v == VerdictOf(old(ledger), geometry, (Rotate, id), RotateResponse(angle), now, token, storeOk)
      ensures ledger ==
              Validated(old(ledger), geometry, (Rotate, id), RotateResponse(angle), now, token, deleteOk, storeOk)
    {
      if id !in rotates || now >= rotates[id].1 {
        return Expired;
      }
      var target := rotates[id].0;
      DeleteRotateAnswer(id, deleteOk);
      if !geometry.rotate(angle, target, 5) {
        return Invalid;
      }
      v := IssueToken((Rotate, id), now, token, storeOk);
    }

    /** One atomic delete decides: it succeeds for the one caller that finds the token. */
    method ValidateCaptchaToken(token: string, now: int) returns (ok: bool)
      requires Valid()
      modifies this`tokens, this`ledger
      ensures Valid()
      ensures ok <==> token in old(tokens) && now < old(tokens)[token]
      ensures tokens == if ok then old(tokens) - {token} else old(tokens)
      ensures ledger == Consumed(old(ledger), token, now)
    {
      if token !in tokens || now >= tokens[token] {
        return false;
      }
      tokens := tokens - {token};
      ledger := Consumed(ledger, token, now);
      ok := true;
    }
  }
}
