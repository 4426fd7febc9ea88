/**
 Password reset tokens: single use, expiry, and two clean-ups that no one can notice.

 A reset looks its token up, changes the password and marks the token.  These are three steps, between which other
 resets, of the same token too, and clean-ups may run, and at each of which a reset may die.
 */
module ResetTokens {
  import opened Outcomes

  datatype Token = Token(userId: string, expiresAt: int, used: bool, usedAt: Option<int>)

  const RESET_WINDOW := 1000 * 60 * 30
  const USED_RETENTION := 24 * 60 * 60 * 1000

  datatype ResetError = InvalidToken | WeakPassword | Died

  /** A reset that has found its token, and whether it has changed the password yet. */
  datatype OpenReset = OpenReset(token: string, changed: bool)

  /**
   The stored tokens, every token value ever issued, the resets under way, the token behind each password change made
   so far and the token behind each reset that died after changing the password and before marking its token.
   */
  datatype State = State(
    tokens: map<string, Token>,
    issued: set<string>,
    open: map<nat, OpenReset>,
    changes: multiset<string>,
    deaths: multiset<string>)

  datatype Action =
    | Create(token: string, userId: string, now: int)
    | Find(token: string, now: int)
    | LookUp(call: nat, token: string, now: int, strong: bool)
    | WritePassword(call: nat, now: int)
    | Mark(call: nat, now: int)
    | Die(call: nat, now: int)
    | DeleteExpired(now: int)
    | CleanupUsed(now: int)
    | ExpireInBackground(tokens: set<string>, now: int)
  {
    predicate IsCleanup() {
      DeleteExpired? || CleanupUsed? || ExpireInBackground?
    }
  }

  predicate Live(t: Token, now: int) {
    !t.used && t.expiresAt > now
  }

  function FindByToken(tokens: map<string, Token>, token: string, now: int): Option<Token> {
    if token in tokens && Live(tokens[token], now) then Some(tokens[token]) else None
  }

  /** `markAsUsed` finds the token whether or not it has expired. */
  function MarkAsUsed(tokens: map<string, Token>, token: string, now: int): map<string, Token> {
    if token in tokens && !tokens[token].used then tokens[token := tokens[token].(used := true, usedAt := Some(now))]
    else tokens
  }

  function Expired(tokens: map<string, Token>, now: int): set<string> {
    set k | k in tokens && tokens[k].expiresAt < now
  }

  function UsedLongAgo(tokens: map<string, Token>, now: int): set<string> {
    set k | k in tokens && tokens[k].used && tokens[k].usedAt.Some? && tokens[k].usedAt.value < now - USED_RETENTION
  }

  /** The TTL index may delete any tokens that have reached their expiry. */
  function InBackground(tokens: map<string, Token>, chosen: set<string>, now: int): set<string> {
    set k | k in tokens && k in chosen && tokens[k].expiresAt <= now
  }

  /** Why a reset is refused at the lookup, if it is. */
  function Refusal(tokens: map<string, Token>, token: string, now: int, strong: bool): Option<ResetError> {
    if FindByToken(tokens, token, now) == None then Some(InvalidToken)
    else if !strong then Some(WeakPassword)
    else None
  }

  /** The answer of `findByToken`, or of `resetPassword` so far. */
  datatype Answer = Done | Found(token: Option<Token>) | Refused(error: Option<ResetError>)

  function Respond(s: State, a: Action): Answer {
    match a
    case Find(token, now) => Found(FindByToken(s.tokens, token, now))
    case LookUp(_, token, now, strong) => Refused(Refusal(s.tokens, token, now, strong))
    case _ => Done
  }

  predicate MayWrite(s: State, call: nat) { call in s.open && !s.open[call].changed }

  predicate MayMark(s: State, call: nat) { call in s.open && s.open[call].changed }

  /** A step of a reset that is not at that step changes nothing. */
  function Apply(s: State, a: Action): State {
    match a
    case Create(token, userId, now) =>
      if token in s.tokens then s
      else s.(tokens := s.tokens[token := Token(userId, now + RESET_WINDOW, false, None)], issued := s.issued + {token})
    case Find(_, _) => s
    case LookUp(c, token, now, strong) =>
      if c in s.open || Refusal(s.tokens, token, now, strong).Some? then s
      else s.(open := s.open[c := OpenReset(token, false)])
    case WritePassword(c, _) =>
      if !MayWrite(s, c) then s
      else s.(open := s.open[c := s.open[c].(changed := true)], changes := s.changes + multiset{s.open[c].token})
    case Mark(c, now) =>
      if !MayMark(s, c) then s
      else s.(open := s.open - {c}, tokens := MarkAsUsed(s.tokens, s.open[c].token, now))
    case Die(c, _) =>
      if c !in s.open then s
      else s.(open := s.open - {c},
              deaths := if s.open[c].changed then s.deaths + multiset{s.open[c].token} else s.deaths)
    case DeleteExpired(now) => s.(tokens := s.tokens - Expired(s.tokens, now))
    case CleanupUsed(now) => s.(tokens := s.tokens - UsedLongAgo(s.tokens, now))
    case ExpireInBackground(chosen, now) => s.(tokens := s.tokens - InBackground(s.tokens, chosen, now))
  }

  function Exec(s: State, run: seq<Action>): State
    decreases run
  {
    if run == [] then s else Exec(Apply(s, run[0]), run[1..])
  }

  /** What the calls of a run that are not clean-ups answer. */
  function Answers(s: State, run: seq<Action>): seq<Answer>
    decreases run
  {
    if run == [] then []
    else (if run[0].IsCleanup() then [] else [Respond(s, run[0])]) + Answers(Apply(s, run[0]), run[1..])
  }

  function WithoutCleanups(run: seq<Action>): seq<Action> {
    if run == [] then []
    else (if run[0].IsCleanup() then [] else [run[0]]) + WithoutCleanups(run[1..])
  }

  /** The clock never goes back, and the random token values never repeat one issued before. */
  predicate Proper(run: seq<Action>, issued: set<string>, since: int)
    decreases run
  {
    run == [] || (
      && since <= run[0].now
      && (run[0].Create? ==> run[0].token !in issued)
      && Proper(run[1..], if run[0].Create? then issued + {run[0].token} else issued, run[0].now))
  }

  lemma Step(s: State, a: Action, rest: seq<Action>)
    ensures Exec(s, [a] + rest) == Exec(Apply(s, a), rest)
  {
    assert ([a] + rest)[1..] == rest;
  }

  lemma TwoSteps(s: State, a: Action, b: Action)
    ensures Exec(s, [a, b]) == Apply(Apply(s, a), b)
  {
    assert [a, b][1..] == [b] && [b][1..] == [];
    assert Exec(Apply(Apply(s, a), b), []) == Apply(Apply(s, a), b);
  }

  lemma ThreeSteps(s: State, a: Action, b: Action, c: Action)
    ensures Exec(s, [a, b, c]) == Apply(Apply(Apply(s, a), b), c)
  {
    assert [a, b, c][1..] == [b, c];
    TwoSteps(Apply(s, a), b, c);
  }

  /** A new token is found for half an hour, and creating it disturbs no other. */
  lemma NewTokenIsFoundExactly(s: State, token: string, userId: string, now: int, later: int, other: string)
    requires token !in s.tokens
    ensures var t := Apply(s, Create(token, userId, now));
            && (FindByToken(t.tokens, token, later).Some? <==> later < now + 30 * 60 * 1000)
            && (FindByToken(t.tokens, token, later).Some? ==>
                  FindByToken(t.tokens, token, later).value.userId == userId)
            && (other != token ==> FindByToken(t.tokens, other, later) == FindByToken(s.tokens, other, later))
  {
  }

  /** The index may take any token as soon as it has reached its expiry, and no token before. */
  lemma IndexTakesExpired(s: State, chosen: set<string>, now: int, token: string)
    requires token in s.tokens
    ensures token !in Apply(s, ExpireInBackground(chosen, now)).tokens
       <==> token in chosen && s.tokens[token].expiresAt <= now
  {
  }

  // ---- clean-ups are invisible ----

  /** `a` is `b` without some tokens that can no longer be found. */
  predicate SameButDead(a: State, b: State, now: int) {
    && a.issued == b.issued && a.open == b.open && a.changes == b.changes && a.deaths == b.deaths
    && a.tokens.Keys <= b.tokens.Keys && b.tokens.Keys <= b.issued
    && (forall k <- a.tokens :: a.tokens[k] == b.tokens[k])
    && (forall k <- b.tokens :: k !in a.tokens ==> !Live(b.tokens[k], now))
  }

  /** A clean-up deletes only tokens that can no longer be found. */
  lemma CleanupDeletesDead(a: State, b: State, c: Action, since: int)
    requires SameButDead(a, b, since) && c.IsCleanup() && since <= c.now
    ensures SameButDead(Apply(a, c), b, c.now)
  {
  }

  lemma CallsAgree(a: State, b: State, c: Action, since: int)
    requires SameButDead(a, b, since) && !c.IsCleanup() && since <= c.now
    requires c.Create? ==> c.token !in b.issued
    ensures Respond(a, c) == Respond(b, c)
    ensures SameButDead(Apply(a, c), Apply(b, c), c.now)
  {
    if c.Mark? {
      MarksAgree(a, b, c, since);
    } else if c.Create? {
      CreatesAgree(a, b, c, since);
    } else if c.LookUp? {
      LookUpsAgree(a, b, c, since);
    } else {
      OthersAgree(a, b, c, since);
    }
  }

  lemma LookUpsAgree(a: State, b: State, c: Action, since: int)
    requires SameButDead(a, b, since) && since <= c.now && c.LookUp?
    ensures Respond(a, c) == Respond(b, c)
    ensures SameButDead(Apply(a, c), Apply(b, c), c.now)
  {
    assert FindByToken(a.tokens, c.token, c.now) == FindByToken(b.tokens, c.token, c.now);
    assert Refusal(a.tokens, c.token, c.now, c.strong) == Refusal(b.tokens, c.token, c.now, c.strong);
    assert Apply(a, c).tokens == a.tokens && Apply(b, c).tokens == b.tokens;
  }

  lemma CreatesAgree(a: State, b: State, c: Action, since: int)
    requires SameButDead(a, b, since) && c.Create? && since <= c.now && c.token !in b.issued
    ensures SameButDead(Apply(a, c), Apply(b, c), c.now)
  {
  }

  lemma OthersAgree(a: State, b: State, c: Action, since: int)
    requires SameButDead(a, b, since) && since <= c.now
    requires c.Find? || c.WritePassword? || c.Die?
    ensures Respond(a, c) == Respond(b, c)
    ensures SameButDead(Apply(a, c), Apply(b, c), c.now)
  {
    assert Apply(a, c).tokens == a.tokens && Apply(b, c).tokens == b.tokens;
  }

  lemma MarksAgree(a: State, b: State, c: Action, since: int)
    requires SameButDead(a, b, since) && c.Mark? && since <= c.now
    ensures SameButDead(Apply(a, c), Apply(b, c), c.now)
  {
  }

  lemma {:induction false} CleanupsInvisibleFrom(a: State, b: State, run: seq<Action>, since: int)
    requires SameButDead(a, b, since) && Proper(run, b.issued, since)
    ensures Answers(a, run) == Answers(b, WithoutCleanups(run))
    ensures Exec(a, run).changes == Exec(b, WithoutCleanups(run)).changes
    decreases run
  {
    if run != [] {
      var c := run[0];
      if c.IsCleanup() {
        CleanupDeletesDead(a, b, c, since);
        assert WithoutCleanups(run) == WithoutCleanups(run[1..]);
        assert Answers(a, run) == Answers(Apply(a, c), run[1..]);
        CleanupsInvisibleFrom(Apply(a, c), b, run[1..], c.now);
      } else {
        CallsAgree(a, b, c, since);
        CleanupsInvisibleFrom(Apply(a, c), Apply(b, c), run[1..], c.now);
        assert WithoutCleanups(run)[1..] == WithoutCleanups(run[1..]);
      }
    }
  }

  /**
   Clean-ups are invisible: with a forward clock and fresh tokens, a run with clean-ups anywhere in it, also between the
   steps of resets, gives every lookup and every reset the answer, and makes the password changes, of the same run
   without them.
   */
  lemma CleanupsAreInvisible(s: State, run: seq<Action>, since: int)
    requires s.tokens.Keys <= s.issued && Proper(run, s.issued, since)
    ensures Answers(s, run) == Answers(s, WithoutCleanups(run))
    ensures Exec(s, run).changes == Exec(s, WithoutCleanups(run)).changes
  {
    CleanupsInvisibleFrom(s, s, run, since);
  }

  // ---- when a token can change the password again ----

  /** Some reset under way has found the token and has the password still to change. */
  predicate LookedUp(s: State, token: string) {
    exists c <- s.open :: s.open[c] == OpenReset(token, false)
  }

  /** The run can follow, and it changes the password with the token. */
  predicate Reuses(s: State, run: seq<Action>, since: int, token: string) {
    Proper(run, s.issued, since) && Exec(s, run).changes[token] > s.changes[token]
  }

  /**
   Exactly when a token can change the password again, by any run of overlapping resets, deaths and clean-ups: when some
   reset has already looked it up and not yet written the password, or a lookup would find it now.
   */
  lemma ChangesAgainExactlyWhen(s: State, since: int, token: string)
    requires s.tokens.Keys <= s.issued && token in s.issued
    ensures (exists run :: Reuses(s, run, since, token))
       <==> LookedUp(s, token) || FindByToken(s.tokens, token, since).Some?
  {
    if LookedUp(s, token) {
      var c :| c in s.open && s.open[c] == OpenReset(token, false);
      WriteReuses(s, c, since, token);
    } else if FindByToken(s.tokens, token, since).Some? {
      var c := FreshCall(s.open.Keys, 0);
      var s1 := Apply(s, LookUp(c, token, since, true));
      WriteReuses(s1, c, since, token);
      var run := [LookUp(c, token, since, true)] + [WritePassword(c, since)];
      Step(s, LookUp(c, token, since, true), [WritePassword(c, since)]);
      assert run[1..] == [WritePassword(c, since)];
      assert Reuses(s, run, since, token);
    } else {
      forall run | Proper(run, s.issued, since) ensures !Reuses(s, run, since, token) {
        DryForGood(s, run, since, token);
      }
    }
  }

  lemma WriteReuses(s: State, c: nat, since: int, token: string)
    requires c in s.open && s.open[c] == OpenReset(token, false)
    ensures Reuses(s, [WritePassword(c, since)], since, token)
  {
    var run := [WritePassword(c, since)];
    assert run[1..] == [];
    assert Exec(s, run) == Exec(Apply(s, run[0]), []) == Apply(s, run[0]);
  }

  lemma {:induction false} DryForGood(s: State, run: seq<Action>, since: int, token: string)
    requires s.tokens.Keys <= s.issued && token in s.issued && Proper(run, s.issued, since)
    requires !LookedUp(s, token) && FindByToken(s.tokens, token, since) == None
    ensures Exec(s, run).changes[token] == s.changes[token]
    decreases run
  {
    if run != [] {
      var t := Apply(s, run[0]);
      assert !LookedUp(t, token) by {
        forall c | c in t.open ensures t.open[c] != OpenReset(token, false) {
          assert c in s.open ==> s.open[c] != OpenReset(token, false);
        }
      }
      DryForGood(t, run[1..], run[0].now, token);
    }
  }

  /** The first number from `c` on that no call has. */
  function FreshCall(calls: set<nat>, c: nat): (r: nat)
    ensures r >= c && r !in calls
    decreases |calls|
  {
    if c !in calls then c else FreshCall(calls - {c}, c + 1)
  }

  // ---- single use when resets of a token do not overlap ----

  /** The token was issued and can never be found again, whatever the time. */
  predicate Spent(s: State, token: string) {
    token in s.issued && (token in s.tokens ==> s.tokens[token].used)
  }

  predicate Idle(s: State, token: string) {
    forall c <- s.open :: s.open[c].token != token
  }

  /** No reset of the run looks the token up while another reset of it is under way. */
  predicate OneAtATime(s: State, run: seq<Action>, token: string)
    decreases run
  {
    run == [] || (
      && (run[0].LookUp? && run[0].token == token ==> Idle(s, token))
      && OneAtATime(Apply(s, run[0]), run[1..], token))
  }

  /** Some reset of the token gets as far as marking it. */
  predicate SomeMark(s: State, run: seq<Action>, token: string)
    decreases run
  {
    run != [] && (
      || (run[0].Mark? && MayMark(s, run[0].call) && s.open[run[0].call].token == token)
      || SomeMark(Apply(s, run[0]), run[1..], token))
  }

  /** The password changes of resets of the token that are under way. */
  function Pending(s: State, token: string): nat {
    if exists c <- s.open :: s.open[c] == OpenReset(token, true) then 1 else 0
  }

  predicate Single(s: State, token: string) {
    && s.tokens.Keys <= s.issued
    && (forall c <- s.open :: s.open[c].token in s.issued)
    && (forall c, d | c in s.open && d in s.open && s.open[c].token == token && s.open[d].token == token :: c == d)
  }

  lemma {:induction false} SpentForGood(s: State, run: seq<Action>, since: int, token: string)
    requires Single(s, token) && Proper(run, s.issued, since) && Spent(s, token) && Idle(s, token)
    ensures Exec(s, run).changes[token] == s.changes[token] && Exec(s, run).deaths[token] == s.deaths[token]
    ensures !SomeMark(s, run, token) && Pending(Exec(s, run), token) == 0
    decreases run
  {
    if run != [] {
      SpentForGood(Apply(s, run[0]), run[1..], run[0].now, token);
    }
  }

  /** One step's part in the account of `SingleUse`. */
  lemma SingleStep(s: State, a: Action, token: string)
    requires Single(s, token) && (a.LookUp? && a.token == token ==> Idle(s, token))
    ensures var t := Apply(s, a);
            && Single(t, token)
            && t.deaths[token] >= s.deaths[token]
            && var marks := a.Mark? && MayMark(s, a.call) && s.open[a.call].token == token;
               && (marks ==> Spent(t, token) && Idle(t, token))
               && t.changes[token] + s.deaths[token] + Pending(s, token)
                  == s.changes[token] + t.deaths[token] + Pending(t, token) + if marks then 1 else 0
  {
    if (a.WritePassword? || a.Mark? || a.Die?) && a.call in s.open && s.open[a.call].token == token {
      OwnStep(s, a, token);
    } else {
      OtherStep(s, a, token);
    }
  }

  lemma OwnStep(s: State, a: Action, token: string)
    requires Single(s, token)
    requires (a.WritePassword? || a.Mark? || a.Die?) && a.call in s.open && s.open[a.call].token == token
    ensures var t := Apply(s, a);
            && Single(t, token)
            && (a.Mark? && MayMark(s, a.call) ==> Spent(t, token) && Idle(t, token))
            && t.deaths[token] >= s.deaths[token]
            && t.changes[token] + s.deaths[token] + Pending(s, token)
               == s.changes[token] + t.deaths[token] + Pending(t, token)
                  + if a.Mark? && MayMark(s, a.call) then 1 else 0
  {
    var t := Apply(s, a);
    assert forall c <- t.open :: c != a.call ==> t.open[c].token != token;
    if a.WritePassword? && MayWrite(s, a.call) {
      assert t.open[a.call] == OpenReset(token, true);
    }
  }

  lemma OtherStep(s: State, a: Action, token: string)
    requires Single(s, token) && (a.LookUp? && a.token == token ==> Idle(s, token))
    requires (a.WritePassword? || a.Mark? || a.Die?) && a.call in s.open ==> s.open[a.call].token != token
    ensures var t := Apply(s, a);
            && Single(t, token) && Pending(t, token) == Pending(s, token)
            && t.changes[token] == s.changes[token] && t.deaths[token] == s.deaths[token]
  {
    StillSingle(s, a, token);
    SamePending(s, a, token);
  }

  lemma StillSingle(s: State, a: Action, token: string)
    requires Single(s, token) && (a.LookUp? && a.token == token ==> Idle(s, token))
    ensures Single(Apply(s, a), token)
  {
  }

  lemma SamePending(s: State, a: Action, token: string)
    requires (a.WritePassword? || a.Mark? || a.Die?) && a.call in s.open ==> s.open[a.call].token != token
    ensures Pending(Apply(s, a), token) == Pending(s, token)
  {
    var t := Apply(s, a);
    assert forall c :: (c in t.open && t.open[c] == OpenReset(token, true))
                  <==> (c in s.open && s.open[c] == OpenReset(token, true));
  }

  /**
   In every run in which resets of the token do not overlap each other, the token causes one password change for each
   reset of it that died between changing the password and marking the token, one while a reset is at that point, and
   exactly one more if and only if some reset of it got as far as the mark.
   */
  lemma {:induction false} SingleUse(s: State, run: seq<Action>, since: int, token: string)
    requires Single(s, token) && Proper(run, s.issued, since) && OneAtATime(s, run, token)
    ensures Exec(s, run).changes[token] + s.deaths[token] + Pending(s, token)
         == s.changes[token] + Exec(s, run).deaths[token] + Pending(Exec(s, run), token)
            + if SomeMark(s, run, token) then 1 else 0
    ensures Exec(s, run).deaths[token] >= s.deaths[token]
    decreases run
  {
    if run != [] {
      var a := run[0];
      SingleStep(s, a, token);
      if a.Mark? && MayMark(s, a.call) && s.open[a.call].token == token {
        SpentForGood(Apply(s, a), run[1..], a.now, token);
      } else {
        SingleUse(Apply(s, a), run[1..], a.now, token);
      }
    }
  }

  /** Without that condition it fails with no reset dying: two resets that both look the token up first both succeed. */
  lemma OverlappingResetsBothChange(s: State, c: nat, d: nat, token: string, now: int)
    requires FindByToken(s.tokens, token, now).Some? && c != d && c !in s.open && d !in s.open
    ensures var t := Exec(s, [LookUp(c, token, now, true), LookUp(d, token, now, true), WritePassword(c, now)]);
            var u := Exec(t, [Mark(c, now), WritePassword(d, now), Mark(d, now)]);
            u.changes[token] == s.changes[token] + 2 && u.deaths == s.deaths && u.open == s.open
  {
    TwoLookUps(s, c, d, token, now);
    var t := Exec(s, [LookUp(c, token, now, true), LookUp(d, token, now, true), WritePassword(c, now)]);
    TwoMarks(t, c, d, token, now);
    assert t.open - {c} - {d} == s.open;
  }

  lemma TwoLookUps(s: State, c: nat, d: nat, token: string, now: int)
    requires FindByToken(s.tokens, token, now).Some? && c != d && c !in s.open && d !in s.open
    ensures var t := Exec(s, [LookUp(c, token, now, true), LookUp(d, token, now, true), WritePassword(c, now)]);
            && t.open == s.open[c := OpenReset(token, true)][d := OpenReset(token, false)]
            && t.changes == s.changes + multiset{token} && t.deaths == s.deaths
  {
    var first, second := LookUp(c, token, now, true), LookUp(d, token, now, true);
    ThreeSteps(s, first, second, WritePassword(c, now));
    var s1 := s.(open := s.open[c := OpenReset(token, false)]);
    assert Apply(s, first) == s1;
    assert Apply(s1, second) == s1.(open := s1.open[d := OpenReset(token, false)]);
  }

  lemma TwoMarks(t: State, c: nat, d: nat, token: string, now: int)
    requires c != d && c in t.open && t.open[c] == OpenReset(token, true)
    requires d in t.open && t.open[d] == OpenReset(token, false)
    ensures var u := Exec(t, [Mark(c, now), WritePassword(d, now), Mark(d, now)]);
            u.changes == t.changes + multiset{token} && u.deaths == t.deaths && u.open == t.open - {c} - {d}
  {
    ThreeSteps(t, Mark(c, now), WritePassword(d, now), Mark(d, now));
  }

  // ---- a reset that nothing overlaps ----

  /** Where a reset may die: at the account write, between that and marking the token, or in the audit after both. */
  datatype ResetFault = NoFault | AtPasswordWrite | BeforeMark | AfterMark

  /** All steps of one reset; those after a refusal change nothing. */
  function ResetRun(c: nat, token: string, now: int, strong: bool, fault: ResetFault): seq<Action> {
    match fault
    case AtPasswordWrite => [LookUp(c, token, now, strong), Die(c, now)]
    case BeforeMark => [LookUp(c, token, now, strong), WritePassword(c, now), Die(c, now)]
    case _ => [LookUp(c, token, now, strong), WritePassword(c, now), Mark(c, now)]
  }

  function Reset(s: State, c: nat, token: string, now: int, strong: bool, fault: ResetFault): State {
    Exec(s, ResetRun(c, token, now, strong, fault))
  }

  /** What such a reset does, as one step. */
  lemma ResetEffect(s: State, c: nat, token: string, now: int, strong: bool, fault: ResetFault)
    requires c !in s.open
    ensures Reset(s, c, token, now, strong, fault)
         == if Refusal(s.tokens, token, now, strong).Some? || fault == AtPasswordWrite then s
            else if fault == BeforeMark then
              s.(changes := s.changes + multiset{token}, deaths := s.deaths + multiset{token})
            else s.(changes := s.changes + multiset{token}, tokens := MarkAsUsed(s.tokens, token, now))
  {
    var look, write := LookUp(c, token, now, strong), WritePassword(c, now);
    TwoSteps(s, look, Die(c, now));
    ThreeSteps(s, look, write, Die(c, now));
    ThreeSteps(s, look, write, Mark(c, now));
    if Refusal(s.tokens, token, now, strong) == None {
      var s1 := s.(open := s.open[c := OpenReset(token, false)]);
      var s2 := s.(open := s.open[c := OpenReset(token, true)], changes := s.changes + multiset{token});
      assert Apply(s, look) == s1 && s1.open - {c} == s.open;
      assert Apply(s1, write) == s2 && s2.open - {c} == s.open;
    }
  }

  /** A reset leaves its token to be found again exactly when it did not reach the mark, until the token expires. */
  lemma FoundAgainExactlyWhen(s: State, c: nat, token: string, now: int, later: int, strong: bool, fault: ResetFault)
    requires c !in s.open && FindByToken(s.tokens, token, now).Some? && now <= later
    ensures FindByToken(Reset(s, c, token, now, strong, fault).tokens, token, later).Some?
       <==> (!strong || fault == AtPasswordWrite || fault == BeforeMark) && later < s.tokens[token].expiresAt
  {
    ResetEffect(s, c, token, now, strong, fault);
  }

  /** Two resets of one token, one after the other, both change the password exactly when the first dies unmarked. */
  lemma SecondChangeExactlyWhen(s: State, c: nat, token: string, now: int, strong: bool, fault: ResetFault,
                                later: int, strong': bool, fault': ResetFault)
    requires c !in s.open && FindByToken(s.tokens, token, now).Some? && now <= later
    ensures var t := Reset(s, c, token, now, strong, fault);
            Reset(t, c, token, later, strong', fault').changes[token] == s.changes[token] + 2
            <==> && strong && fault == BeforeMark
                 && strong' && fault' != AtPasswordWrite && later < s.tokens[token].expiresAt
  {
    ResetEffect(s, c, token, now, strong, fault);
    ResetEffect(Reset(s, c, token, now, strong, fault), c, token, later, strong', fault');
  }

  /**
   After a reset has changed the password, some run, with any overlaps, can change it again with the same token if and
   only if that reset died unmarked or another one had already looked the token up.
   */
  lemma ReusableExactlyWhen(s: State, c: nat, token: string, now: int, fault: ResetFault)
    requires s.tokens.Keys <= s.issued && c !in s.open
    requires FindByToken(s.tokens, token, now).Some? && fault != AtPasswordWrite
    ensures var t := Reset(s, c, token, now, true, fault);
            && t.changes[token] == s.changes[token] + 1
            && ((exists run :: Reuses(t, run, now, token)) <==> fault == BeforeMark || LookedUp(s, token))
  {
    ResetEffect(s, c, token, now, true, fault);
    ChangesAgainExactlyWhen(Reset(s, c, token, now, true, fault), now, token);
  }

  // ---- the code in its own form ----

  class TokenStore {
    var tokens: map<string, Token>
    /** The token behind each password change, newest last. */
    var changes: seq<string>
    ghost var issued: set<string>
    ghost var open: map<nat, OpenReset>
    ghost var deaths: multiset<string>

    ghost function View(): State
      reads this
    {
      State(tokens, issued, open, multiset(changes), deaths)
    }

    method CreateToken(token: string, userId: string, now: int)
      modifies this`tokens, this`issued
      ensures View() == Apply(old(View()), Create(token, userId, now))
      ensures tokens == if token in old(tokens) then old(tokens)
                        else old(tokens)[token := Token(userId, now + 1000 * 60 * 30, false, None)]
    {
      if token !in tokens {
        tokens := tokens[token := Token(userId, now + RESET_WINDOW, false, None)];
        issued := issued + {token};
      }
    }

    method FindToken(token: string, now: int) returns (r: Option<Token>)
      ensures Respond(View(), Find(token, now)) == Found(r)
      ensures r == if token in tokens && !tokens[token].used && tokens[token].expiresAt > now
                   then Some(tokens[token]) else None
    {
      if token in tokens && !tokens[token].used && tokens[token].expiresAt > now {
        return Some(tokens[token]);
      }
      r := None;
    }

    method MarkTokenAsUsed(token: string, now: int) returns (found: bool)
      modifies this`tokens
      ensures tokens == MarkAsUsed(old(tokens), token, now)
      ensures found == (token in old(tokens) && !old(tokens)[token].used)
      ensures tokens == if found then old(tokens)[token := old(tokens)[token].(used := true, usedAt := Some(now))]
                        else old(tokens)
    {
      found := token in tokens && !tokens[token].used;
      if found {
        tokens := tokens[token := tokens[token].(used := true, usedAt := Some(now))];
      }
    }

    // ---- the parts of `resetPassword`, which those of other resets may come between ----

    /** Looks the token up and checks the new password. */
    method CheckToken(ghost call: nat, token: string, now: int, strong: bool) returns (r: Result<(), ResetError>)
      requires call !in open
      modifies this`open
      ensures View() == Apply(old(View()), LookUp(call, token, now, strong))
      ensures Respond(old(View()), LookUp(call, token, now, strong))
           == Refused(match r case Ok(_) => None case Err(e) => Some(e))
      ensures r.Ok? <==> call in open
      ensures var found := token in tokens && !tokens[token].used && tokens[token].expiresAt > now;
              r == if !found then Err(InvalidToken) else if !strong then Err(WeakPassword) else Ok(())
      ensures r.Ok? ==> open == old(open)[call := OpenReset(token, false)]
    {
      var entry := FindToken(token, now);
      if entry == None {
        return Err(InvalidToken);
      }
      if !strong {
        return Err(WeakPassword);
      }
      open := open[call := OpenReset(token, false)];
      r := Ok(());
    }

    method ChangePassword(ghost call: nat, token: string, ghost now: int)
      requires call in open && open[call] == OpenReset(token, false)
      modifies this`open, this`changes
      ensures View() == Apply(old(View()), WritePassword(call, now))
      ensures changes == old(changes) + [token]
    {
      changes := changes + [token];
      open := open[call := OpenReset(token, true)];
    }

    /** The answer of `markAsUsed` is not looked at. */
    method FinishReset(ghost call: nat, token: string, now: int)
      requires call in open && open[call] == OpenReset(token, true)
      modifies this`open, this`tokens
      ensures View() == Apply(old(View()), Mark(call, now))
    {
      var _ := MarkTokenAsUsed(token, now);
      open := open - {call};
    }

    ghost method Abandon(call: nat, now: int)
      requires call in open
      modifies this`open, this`deaths
      ensures View() == Apply(old(View()), Die(call, now))
    {
      if open[call].changed {
        deaths := deaths + multiset{open[call].token};
      }
      open := open - {call};
    }

    /** `resetPassword`: look the token up, change the password, mark the token, write the audit log. */
    method ResetPassword(ghost call: nat, token: string, now: int, strong: bool, fault: ResetFault)
      returns (r: Result<(), ResetError>)
      requires call !in open
      modifies this
      ensures View() == Reset(old(View()), call, token, now, strong, fault)
      ensures r == match Refusal(old(tokens), token, now, strong)
                   case Some(e) => Err(e)
                   case None => if fault == NoFault then Ok(()) else Err(Died)
      ensures var found := token in old(tokens) && !old(tokens)[token].used && old(tokens)[token].expiresAt > now;
              && (r == Err(InvalidToken) <==> !found)
              && (r == Err(WeakPassword) <==> found && !strong)
              && (r == Err(Died) <==> found && strong && fault != NoFault)
    {
      ghost var s := View();
      ghost var look, write := LookUp(call, token, now, strong), WritePassword(call, now);
      r := CheckToken(call, token, now, strong);
      if r.Err? {
        ResetEffect(s, call, token, now, strong, fault);
        return;
      }
      if fault == AtPasswordWrite {
        TwoSteps(s, look, Die(call, now));
        Abandon(call, now);
        return Err(Died);
      }
      ChangePassword(call, token, now);
      if fault == BeforeMark {
        ThreeSteps(s, look, write, Die(call, now));
        Abandon(call, now);
        return Err(Died);
      }
      ThreeSteps(s, look, write, Mark(call, now));
      FinishReset(call, token, now);
      r := if fault == AfterMark then Err(Died) else Ok(());
    }

    method DeleteExpiredTokens(now: int) returns (deleted: nat)
      modifies this`tokens
      ensures View() == Apply(old(View()), DeleteExpired(now))
      ensures deleted == |Expired(old(tokens), now)|
      ensures forall k :: k in tokens <==> k in old(tokens) && old(tokens)[k].expiresAt >= now
      ensures forall k <- tokens :: tokens[k] == old(tokens)[k]
    {
      var gone := Expired(tokens, now);
      tokens := tokens - gone;
      deleted := |gone|;
    }

    method CleanupUsedTokens(now: int) returns (deleted: nat)
      modifies this`tokens
      ensures View() == Apply(old(View()), CleanupUsed(now))
      ensures deleted == |UsedLongAgo(old(tokens), now)|
      ensures forall k :: k in tokens <==>
                && k in old(tokens)
                && !(old(tokens)[k].used && old(tokens)[k].usedAt.Some?
                     && old(tokens)[k].usedAt.value < now - 24 * 60 * 60 * 1000)
      ensures forall k <- tokens :: tokens[k] == old(tokens)[k]
    {
      var cutoff := now - USED_RETENTION;
      var gone := set k | k in tokens && tokens[k].used && tokens[k].usedAt.Some? && tokens[k].usedAt.value < cutoff;
      tokens := tokens - gone;
      deleted := |gone|;
    }
  }
}
