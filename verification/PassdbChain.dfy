/** The chain of password databases that a plain-password request goes through: return and continue rules,
    deny databases, databases to skip, and the switch from the master databases to those of the user.

    `trace` records the lookups that were made. What the chain decides is defined on the trace alone, and
    the flags that the request carries along are proved to amount to it.
 */
module PassdbChain {
  import opened Options

  datatype Result =
    | InternalFailure | SchemeNotAvailable | UserUnknown | UserDisabled
    | PassExpired | Next | PasswordMismatch | Ok

  datatype Rule = Return | ReturnOk | ReturnFail | Continue | ContinueOk | ContinueFail

  datatype Skip = SkipNever | SkipAuthenticated | SkipUnauthenticated

  /** `acceptsMech` and `acceptsUser` are the outcomes of the mechanism and username filters. */
  datatype Passdb = Passdb(
    deny: bool, success: Rule, failure: Rule, internalfail: Rule,
    skip: Skip, acceptsMech: bool, acceptsUser: string -> bool)

  /** A database in one of the two lists. */
  datatype Pos = Pos(master: bool, idx: nat)

  /** What a lookup does to its request besides returning a result. */
  datatype Outcome = Outcome(
    result: Result, failed: bool, noauthenticate: bool, user: string, loginUser: Option<string>, validCert: bool)

  /** A lookup: the database, its result, and the request when it returned: whether it was marked failed, its user, the
      login user if it is of a master user, and whether a required client certificate is missing. */
  datatype Visit = Visit(
    pos: Pos, db: Passdb, result: Result, failed: bool, user: string, login: Option<string>, uncertified: bool)

  // ---- What a trace decides ----

  ghost function Effective(v: Visit): Result {
    if v.failed && v.result == Ok then UserUnknown else v.result
  }

  ghost predicate Denied(v: Visit) {
    v.db.deny && v.result != UserUnknown
  }

  /** The lookup ends the chain whatever the rules say. */
  ghost predicate Stops(v: Visit) {
    Denied(v) || Effective(v) == UserDisabled || Effective(v) == PassExpired
  }

  ghost function StopResult(v: Visit): Result {
    if Denied(v) then (if v.result == InternalFailure then InternalFailure else UserDisabled) else Effective(v)
  }

  ghost function RuleOf(db: Passdb, result: Result): Rule {
    match result
    case Ok => db.success
    case InternalFailure => db.internalfail
    case Next => Continue
    case _ => db.failure
  }

  ghost function RuleFor(v: Visit): Rule {
    RuleOf(v.db, Effective(v))
  }

  ghost predicate Continues(rule: Rule) {
    rule.Continue? || rule.ContinueOk? || rule.ContinueFail?
  }

  /** Whether ok is said last, if `word` was said before the rule. */
  ghost predicate Says(rule: Rule, word: bool) {
    if rule.Return? || rule.Continue? then word else rule.ReturnOk? || rule.ContinueOk?
  }

  /** The rule lets the chain go on with the password taken as verified. */
  ghost predicate Verifies(rule: Rule, result: Result) {
    rule.ContinueOk? || (rule.Continue? && result == Ok)
  }

  ghost predicate Word(v: Visit, word: bool) {
    if Stops(v) then word else Says(RuleFor(v), word)
  }

  /** The last rule that said ok or fail said ok. */
  ghost predicate LastWord(trace: seq<Visit>) {
    trace != [] && Word(trace[|trace| - 1], LastWord(trace[..|trace| - 1]))
  }

  ghost predicate Seen(trace: seq<Visit>, result: Result) {
    exists i :: 0 <= i < |trace| && Effective(trace[i]) == result
  }

  /** Every lookup let the chain go on. */
  ghost predicate AllContinued(trace: seq<Visit>) {
    forall i :: 0 <= i < |trace| ==> !Stops(trace[i]) && Continues(RuleFor(trace[i]))
  }

  ghost function VerdictAt(v: Visit, word: bool, seenInternalFailure: bool): Result {
    if Stops(v) then StopResult(v)
    else if word then Ok
    else if seenInternalFailure || Effective(v) == Next then InternalFailure
    else Effective(v)
  }

  /** What the chain returns when its last lookup ends it. */
  ghost function Verdict(trace: seq<Visit>): Result
    requires trace != []
  {
    VerdictAt(trace[|trace| - 1], LastWord(trace), Seen(trace[..|trace| - 1], InternalFailure))
  }

  /** The password has been verified: a rule took it as such. */
  ghost predicate Authenticated(trace: seq<Visit>) {
    trace != [] && (Authenticated(trace[..|trace| - 1]) || VerifiesAt(trace[|trace| - 1]))
  }

  ghost predicate VerifiesAt(v: Visit) {
    !Stops(v) && Verifies(RuleFor(v), Effective(v))
  }

  /** How a request can end: by its last lookup, because all databases that are left are skipped, or before
      any lookup because it cannot be authenticated at all. */
  ghost predicate Ended(trace: seq<Visit>, result: Result) {
    || (trace != [] && AllContinued(trace[..|trace| - 1]) && result == Verdict(trace))
    || (AllContinued(trace) && result == InternalFailure)
    || (trace == [] && result == UserUnknown)
  }

  /** The chain never ends in NEXT. */
  lemma NeverNext(trace: seq<Visit>, result: Result)
    requires Ended(trace, result)
    ensures result != Next
  {
  }

  /** A request can only succeed if the last word was ok and no deny database knew the user. */
  lemma SuccessMeans(trace: seq<Visit>, result: Result)
    requires Ended(trace, result) && LastWord(trace)
    requires result == Ok
    ensures forall i :: 0 <= i < |trace| ==> !Stops(trace[i])
    ensures forall i :: 0 <= i < |trace| && trace[i].db.deny ==> trace[i].result == UserUnknown
  {
    var n := |trace| - 1;
    forall i | 0 <= i < |trace| ensures !Stops(trace[i]) {
      if i < n {
        assert trace[..n][i] == trace[i];
      }
    }
    forall i | 0 <= i < |trace| && trace[i].db.deny ensures trace[i].result == UserUnknown {
      assert !Stops(trace[i]);
    }
  }

  /** An internal failure that the chain went past is reported, unless the request succeeds or the last lookup
      stops the chain. */
  lemma InternalFailureReported(trace: seq<Visit>, result: Result, i: nat)
    requires Ended(trace, result) && i < |trace| - 1 && Effective(trace[i]) == InternalFailure
    ensures Stops(trace[|trace| - 1]) || result == InternalFailure || (result == Ok && LastWord(trace))
  {
    assert trace[..|trace| - 1][i] == trace[i];
  }

  lemma Appended(trace: seq<Visit>, v: Visit)
    ensures (trace + [v])[..|trace|] == trace && (trace + [v])[|trace|] == v
    ensures forall r :: Seen(trace + [v], r) <==> Seen(trace, r) || Effective(v) == r
    ensures AllContinued(trace + [v]) <==> AllContinued(trace) && !Stops(v) && Continues(RuleFor(v))
  {
    var t := trace + [v];
    forall r ensures Seen(t, r) <==> Seen(trace, r) || Effective(v) == r {
      if i :| 0 <= i < |trace| && Effective(trace[i]) == r {
        assert Effective(t[i]) == r;
      }
      assert Effective(t[|trace|]) == Effective(v);
    }
    if AllContinued(t) {
      forall i | 0 <= i < |trace| ensures !Stops(trace[i]) && Continues(RuleFor(trace[i])) {
        assert t[i] == trace[i];
      }
      assert t[|trace|] == v;
    }
  }

  // ---- The request ----

  datatype Config = Config(masterdbs: seq<Passdb>, passdbs: seq<Passdb>, requireClientCert: bool, password: string)

  /** The part of a request that the chain works with. */
  datatype Request = Request(
    passdb: Option<Pos>, user: string, requestedLoginUser: Option<string>, validClientCert: bool,
    failed: bool, passdbSuccess: bool, skipPasswordCheck: bool, seenUserUnknown: bool, seenInternalFailure: bool)

  predicate HasIllegalChars(password: string) {
    exists i :: 0 <= i < |password| && password[i] in {'\U{1}', '\t', '\r', '\n'}
  }

  function Dbs(c: Config, master: bool): seq<Passdb> {
    if master then c.masterdbs else c.passdbs
  }

  predicate Exists(c: Config, pos: Pos) {
    pos.idx < |Dbs(c, pos.master)|
  }

  function Db(c: Config, pos: Pos): Passdb
    requires Exists(c, pos)
  {
    Dbs(c, pos.master)[pos.idx]
  }

  /** auth_request_want_skip_passdb() */
  predicate WantSkip(db: Passdb, user: string, authenticated: bool) {
    || !db.acceptsMech
    || !db.acceptsUser(user)
    || match db.skip {
         case SkipNever => false
         case SkipAuthenticated => authenticated
         case SkipUnauthenticated => !authenticated
       }
  }

  /** The first database from a position on that is not to be skipped. */
  ghost function FirstFrom(c: Config, user: string, authenticated: bool, pos: Pos): (next: Option<Pos>)
    ensures next.Some? ==>
              && Exists(c, next.value) && !WantSkip(Db(c, next.value), user, authenticated)
              && next.value.master == pos.master && pos.idx <= next.value.idx
    decreases |Dbs(c, pos.master)| - pos.idx
  {
    if !Exists(c, pos) then None
    else if WantSkip(Db(c, pos), user, authenticated)
    then FirstFrom(c, user, authenticated, Pos(pos.master, pos.idx + 1))
    else Some(pos)
  }

  /** Where the chain goes on: at the first database of the login user after a master login, else at the next one. */
  function Onward(pos: Pos, masterLogin: bool): Pos {
    if masterLogin then Pos(false, 0) else Pos(pos.master, pos.idx + 1)
  }

  /** The request is about to look up a database. */
  ghost predicate Looking(c: Config, r: Request) {
    r.passdb.Some? && Exists(c, r.passdb.value)
  }

  /** The flags say what the trace says. */
  ghost predicate Flags(r: Request, trace: seq<Visit>) {
    && AllContinued(trace) && r.passdbSuccess == LastWord(trace)
    && r.skipPasswordCheck == Authenticated(trace)
    && (r.seenInternalFailure <==> Seen(trace, InternalFailure))
    && (r.seenUserUnknown <==> Seen(trace, UserUnknown))
  }

  function VisitOf(c: Config, r: Request, lookup: Result): Visit
    requires Looking(c, r)
  {
    Visit(r.passdb.value, Db(c, r.passdb.value), lookup, r.failed, r.user, r.requestedLoginUser,
          lookup == Ok && c.requireClientCert && !r.validClientCert)
  }

  // ---- Which databases are consulted ----

  /** A master user has logged in, and the login user takes over. */
  ghost predicate MasterLogin(v: Visit) {
    !Stops(v) && Effective(v) == Ok && v.login.Some?
  }

  ghost function UserAfter(v: Visit): string {
    if MasterLogin(v) && !v.uncertified then v.login.value else v.user
  }

  /** Where the chain would go on after a lookup, as far as the user of that lookup is concerned. */
  ghost function NextAfter(c: Config, v: Visit, authenticated: bool): Option<Pos> {
    FirstFrom(c, v.user, authenticated, Onward(v.pos, MasterLogin(v)))
  }

  /** The last lookup ends the chain: whatever the rules say, by its rule, or because every database that follows is to
      be skipped. */
  ghost predicate Ends(c: Config, trace: seq<Visit>)
    requires trace != []
  {
    var v := trace[|trace| - 1];
    Stops(v) || !Continues(RuleFor(v)) || NextAfter(c, v, Authenticated(trace)).None?
  }

  /** The database that is consulted after some lookups, if any. */
  ghost function Following(c: Config, trace: seq<Visit>): Option<Pos>
    requires trace != []
  {
    if Ends(c, trace) then None
    else
      var v := trace[|trace| - 1];
      FirstFrom(c, UserAfter(v), Authenticated(trace), NextAfter(c, v, Authenticated(trace)).value)
  }

  /** The database that is consulted first, if any. */
  ghost function First(c: Config, user: string, login: Option<string>): Option<Pos> {
    if HasIllegalChars(c.password) then None else FirstFrom(c, user, false, Pos(login.Some?, 0))
  }

  ghost function Consulted(c: Config, user: string, login: Option<string>, trace: seq<Visit>): Option<Pos> {
    if trace == [] then First(c, user, login) else Following(c, trace)
  }

  /** What a request returns that consults no further database. */
  ghost function ResultAfter(c: Config, login: Option<string>, trace: seq<Visit>): Result {
    if trace == [] then
      if HasIllegalChars(c.password) || (login.Some? && c.masterdbs == []) then UserUnknown else InternalFailure
    else if Ends(c, trace) then Verdict(trace)
    else InternalFailure
  }

  ghost predicate InTurnAt(c: Config, user: string, login: Option<string>, trace: seq<Visit>, i: nat)
    requires i < |trace|
  {
    && Consulted(c, user, login, trace[..i]) == Some(trace[i].pos)
    && Exists(c, trace[i].pos) && trace[i].db == Db(c, trace[i].pos)
  }

  /** Every lookup was made in the database whose turn it was. */
  ghost predicate InTurn(c: Config, user: string, login: Option<string>, trace: seq<Visit>) {
    forall i: nat :: i < |trace| ==> InTurnAt(c, user, login, trace, i)
  }

  lemma InTurnNext(c: Config, user: string, login: Option<string>, trace: seq<Visit>, v: Visit)
    requires InTurn(c, user, login, trace) && Consulted(c, user, login, trace) == Some(v.pos)
    requires Exists(c, v.pos) && v.db == Db(c, v.pos)
    ensures InTurn(c, user, login, trace + [v])
  {
    forall i: nat | i < |trace| + 1 ensures InTurnAt(c, user, login, trace + [v], i) {
      assert (trace + [v])[..i] == trace[..i];
      if i < |trace| {
        assert InTurnAt(c, user, login, trace, i);
      } else {
        assert trace[..i] == trace;
      }
    }
  }

  /** The loop that skips databases. */
  method SkipFrom(c: Config, r: Request, pos: Pos) returns (next: Option<Pos>)
    ensures next == FirstFrom(c, r.user, r.skipPasswordCheck, pos)
  {
    var dbs, i := Dbs(c, pos.master), pos.idx;
    while i < |dbs| && WantSkip(dbs[i], r.user, r.skipPasswordCheck)
      invariant pos.idx <= i
      invariant FirstFrom(c, r.user, r.skipPasswordCheck, pos) ==
                FirstFrom(c, r.user, r.skipPasswordCheck, Pos(pos.master, i))
    {
      i := i + 1;
    }
    next := if i < |dbs| then Some(Pos(pos.master, i)) else None;
  }

  /** Chooses the rule for a result and executes it. */
  method ApplyRule(db: Passdb, r: Request, verdict: Result) returns (r': Request, continues: bool)
    ensures continues == Continues(RuleOf(db, verdict))
    ensures r' == r.(passdbSuccess := Says(RuleOf(db, verdict), r.passdbSuccess),
                     skipPasswordCheck := r'.skipPasswordCheck)
    ensures r'.skipPasswordCheck == (r.skipPasswordCheck || Verifies(RuleOf(db, verdict), verdict))
  {
    var rule := match verdict
      case Ok => db.success
      case InternalFailure => db.internalfail
      case Next => Continue
      case _ => db.failure;
    r', continues := r, false;
    match rule {
      case Return =>
      case ReturnOk => r' := r.(passdbSuccess := true);
      case ReturnFail => r' := r.(passdbSuccess := false);
      case Continue =>
        continues := true;
        if verdict == Ok {
          r' := r.(skipPasswordCheck := true);
        }
      case ContinueOk =>
        continues := true;
        r' := r.(passdbSuccess := true, skipPasswordCheck := true);
      case ContinueFail =>
        continues := true;
        r' := r.(passdbSuccess := false);
    }
  }

  ghost predicate SameUser(r: Request, r': Request) {
    r'.user == r.user && r'.requestedLoginUser == r.requestedLoginUser && r'.validClientCert == r.validClientCert
  }

  /** auth_request_finish_passdb_lookup(). An internal failure that finishes the chain may be reported late. */
  method FinishLookup(c: Config, r: Request, lookup: Result)
    returns (r': Request, finished: bool, verdict: Result, next: Option<Pos>, masterLogin: bool)
    requires Looking(c, r)
    ensures var v := VisitOf(c, r, lookup);
            r'.passdbSuccess == Word(v, r.passdbSuccess)
            && r'.skipPasswordCheck == (r.skipPasswordCheck || (!Stops(v) && Verifies(RuleFor(v), Effective(v))))
            && r'.failed == (Denied(v) && r.failed)
            && (finished <==> Stops(v) || !Continues(RuleFor(v)) || NextAfter(c, v, r'.skipPasswordCheck).None?)
            && (finished ==> verdict == VerdictAt(v, r'.passdbSuccess, r.seenInternalFailure))
            && (!finished ==>
                  && next == NextAfter(c, v, r'.skipPasswordCheck)
                  && r'.seenInternalFailure == (r.seenInternalFailure || Effective(v) == InternalFailure)
                  && r'.seenUserUnknown == (r.seenUserUnknown || Effective(v) == UserUnknown))
            && (masterLogin <==> MasterLogin(v))
    ensures SameUser(r, r')
  {
    r', verdict, finished := CheckStop(c, r, lookup);
    masterLogin, next := false, None;
    if !finished {
      r', finished, verdict, next, masterLogin := Proceed(c, r', verdict);
    }
  }

  /** The results that no rule applies to. A failure marked inside the lookup makes it fail, but is not left to
      the next one. */
  method CheckStop(c: Config, r: Request, lookup: Result) returns (r': Request, verdict: Result, stop: bool)
    requires Looking(c, r)
    ensures var v := VisitOf(c, r, lookup);
            stop == Stops(v) && verdict == (if stop then StopResult(v) else Effective(v))
            && r' == r.(failed := Denied(v) && r.failed)
  {
    r', verdict, stop := r, lookup, true;
    if Db(c, r.passdb.value).deny && lookup != UserUnknown {
      if lookup != InternalFailure {
        verdict := UserDisabled;
      }
      return;
    }
    if r.failed {
      if lookup == Ok {
        verdict := UserUnknown;
      }
      r' := r.(failed := false);
    }
    stop := verdict == UserDisabled || verdict == PassExpired;
  }

  /** The part that follows the rules: `verdict` is what the lookup amounts to. */
  method Proceed(c: Config, r: Request, verdict: Result)
    returns (r': Request, finished: bool, verdict': Result, next: Option<Pos>, masterLogin: bool)
    requires Looking(c, r)
    ensures var rule := RuleOf(Db(c, r.passdb.value), verdict);
            r'.passdbSuccess == Says(rule, r.passdbSuccess)
            && r'.skipPasswordCheck == (r.skipPasswordCheck || Verifies(rule, verdict))
            && (finished <==> !Continues(rule) || next.None?)
            && (finished ==> verdict' == if r'.passdbSuccess then Ok
                                         else if r.seenInternalFailure || verdict == Next then InternalFailure
                                         else verdict)
            && (!finished ==>
                  && r'.seenInternalFailure == (r.seenInternalFailure || verdict == InternalFailure)
                  && r'.seenUserUnknown == (r.seenUserUnknown || verdict == UserUnknown))
    ensures masterLogin <==> verdict == Ok && r.requestedLoginUser.Some?
    ensures next == FirstFrom(c, r.user, r'.skipPasswordCheck, Onward(r.passdb.value, masterLogin))
    ensures SameUser(r, r') && r'.failed == r.failed
  {
    var continues;
    r', continues := ApplyRule(Db(c, r.passdb.value), r, verdict);
    next, masterLogin := NextPassdb(c, r', verdict);
    finished := !(continues && next.Some?);
    if finished {
      verdict' := Conclude(r', verdict);
    } else {
      verdict' := verdict;
      r' := Remember(r', verdict);
    }
  }

  /** Where the chain goes on: with the databases of the login user after a master login. */
  method NextPassdb(c: Config, r: Request, verdict: Result) returns (next: Option<Pos>, masterLogin: bool)
    requires Looking(c, r)
    ensures masterLogin <==> r.requestedLoginUser.Some? && verdict == Ok
    ensures next == FirstFrom(c, r.user, r.skipPasswordCheck, Onward(r.passdb.value, masterLogin))
  {
    masterLogin := r.requestedLoginUser.Some? && verdict == Ok;
    next := SkipFrom(c, r, Onward(r.passdb.value, masterLogin));
  }

  /** The result of a chain that ends. */
  method Conclude(r: Request, verdict: Result) returns (verdict': Result)
    ensures verdict' == if r.passdbSuccess then Ok
                        else if r.seenInternalFailure || verdict == Next then InternalFailure
                        else verdict
  {
    verdict' := verdict;
    if r.passdbSuccess {
      verdict' := Ok;
    } else if r.seenInternalFailure {
      verdict' := InternalFailure;
    } else if verdict == Next {
      verdict' := InternalFailure;
    }
  }

  /** What a chain that goes on keeps in mind. */
  method Remember(r: Request, verdict: Result) returns (r': Request)
    ensures r' == r.(seenUserUnknown := r.seenUserUnknown || verdict == UserUnknown,
                     seenInternalFailure := r.seenInternalFailure || verdict == InternalFailure)
  {
    r' := r;
    if verdict == UserUnknown {
      r' := r.(seenUserUnknown := true);
    } else if verdict == InternalFailure {
      r' := r.(seenInternalFailure := true);
    }
  }

  /** How the request goes on: the login user has taken over unless the request was marked failed. */
  ghost predicate Advanced(c: Config, v: Visit, r: Request, r': Request) {
    && r'.passdb.Some? && r'.passdb == NextAfter(c, v, r'.skipPasswordCheck) && r'.user == UserAfter(v)
    && r'.requestedLoginUser == if MasterLogin(v) && !v.uncertified then None else v.login
  }

  /** What one more lookup decides. */
  lemma Decided(c: Config, trace: seq<Visit>, v: Visit)
    ensures LastWord(trace + [v]) == Word(v, LastWord(trace))
    ensures Authenticated(trace + [v]) == (Authenticated(trace) || VerifiesAt(v))
    ensures Verdict(trace + [v]) == VerdictAt(v, Word(v, LastWord(trace)), Seen(trace, InternalFailure))
    ensures Ends(c, trace + [v]) <==>
            Stops(v) || !Continues(RuleFor(v)) || NextAfter(c, v, Authenticated(trace) || VerifiesAt(v)).None?
    ensures AllContinued(trace + [v]) <==> AllContinued(trace) && !Stops(v) && Continues(RuleFor(v))
    ensures Seen(trace + [v], InternalFailure) <==> Seen(trace, InternalFailure) || Effective(v) == InternalFailure
    ensures Seen(trace + [v], UserUnknown) <==> Seen(trace, UserUnknown) || Effective(v) == UserUnknown
  {
    Appended(trace, v);
  }

  /** auth_request_handle_passdb_callback(): the lookup ends, and the login user takes over after a master login. */
  method HandleCallback(c: Config, r: Request, lookup: Result, ghost trace: seq<Visit>)
    returns (r': Request, finished: bool, verdict: Result)
    requires Looking(c, r) && Flags(r, trace)
    ensures var v := VisitOf(c, r, lookup);
            r'.passdbSuccess == LastWord(trace + [v])
            && r'.skipPasswordCheck == Authenticated(trace + [v])
            && r'.failed == ((Denied(v) && r.failed) || v.uncertified) && r'.validClientCert == r.validClientCert
            && (finished <==> Ends(c, trace + [v]))
            && (if finished then verdict == Verdict(trace + [v])
                else Flags(r', trace + [v]) && Looking(c, r') && Advanced(c, v, r, r'))
  {
    var next, masterLogin;
    r', finished, verdict, next, masterLogin := FinishLookup(c, r, lookup);
    Decided(c, trace, VisitOf(c, r, lookup));
    if lookup == Ok && c.requireClientCert && !r'.validClientCert {
      r' := r'.(failed := true);
    }
    if masterLogin && !r'.failed {
      r' := r'.(user := r'.requestedLoginUser.value, requestedLoginUser := None);
    }
    if !finished {
      r' := r'.(passdb := next);
    }
  }

  /** auth_request_default_verify_plain_continue() */
  method VerifyPlainContinue(c: Config, r: Request) returns (r': Request, result: Option<Result>)
    requires r.passdb.Some? ==> Looking(c, r)
    ensures r' == r.(passdb := r'.passdb)
    ensures result.None? <==>
              && !HasIllegalChars(c.password) && r.passdb.Some?
              && FirstFrom(c, r.user, r.skipPasswordCheck, r.passdb.value).Some?
    ensures result.None? ==>
              Looking(c, r') && r'.passdb == FirstFrom(c, r.user, r.skipPasswordCheck, r.passdb.value)
    ensures result.Some? ==>
              result.value == if HasIllegalChars(c.password) || (r.requestedLoginUser.Some? && r.passdb.None?)
                              then UserUnknown else InternalFailure
  {
    r' := r;
    if r.requestedLoginUser.Some? && r.passdb.None? {
      return r', Some(UserUnknown);
    }
    if HasIllegalChars(c.password) {
      return r', Some(UserUnknown);
    }
    if r.passdb.Some? {
      var next := SkipFrom(c, r, r.passdb.value);
      r' := r.(passdb := next);
    }
    result := if r'.passdb.None? then Some(InternalFailure) else None;
  }

  ghost predicate Before(a: Pos, b: Pos) {
    if a.master == b.master then a.idx < b.idx else a.master
  }

  ghost predicate BeforeAt(trace: seq<Visit>, i: nat, j: nat)
    requires i < |trace| && j < |trace|
  {
    Before(trace[i].pos, trace[j].pos)
  }

  /** The master databases were consulted first, each list in order and no database twice. */
  ghost predicate InListOrder(trace: seq<Visit>) {
    forall i: nat, j: nat :: i < j < |trace| ==> BeforeAt(trace, i, j)
  }

  lemma InListOrderAppend(trace: seq<Visit>, v: Visit)
    requires InListOrder(trace) && (trace != [] ==> Before(trace[|trace| - 1].pos, v.pos))
    ensures InListOrder(trace + [v])
  {
    forall i: nat, j: nat | i < j < |trace| + 1 ensures BeforeAt(trace + [v], i, j) {
      if j < |trace| {
        assert BeforeAt(trace, i, j);
      } else if i < |trace| - 1 {
        assert BeforeAt(trace, i, |trace| - 1);
      }
    }
  }

  /** While a master login is pending exactly in the master list, the chain only moves forward. */
  lemma OnwardBefore(c: Config, v: Visit, r: Request, r': Request, r'': Request)
    requires r.passdb == Some(v.pos) && r.requestedLoginUser.Some? == v.pos.master
    requires Advanced(c, v, r, r') && !v.uncertified && v.login == r.requestedLoginUser
    requires r''.passdb.Some? && r''.requestedLoginUser == r'.requestedLoginUser
    requires r''.passdb == FirstFrom(c, r'.user, r'.skipPasswordCheck, r'.passdb.value)
    ensures Before(v.pos, r''.passdb.value) && r''.requestedLoginUser.Some? == r''.passdb.value.master
  {
  }

  /** How many databases the request can still consult. */
  ghost function Left(c: Config, pos: Pos): int {
    |Dbs(c, pos.master)| - pos.idx + if pos.master then |c.passdbs| else 0
  }

  lemma LeftDecreases(c: Config, a: Pos, b: Pos)
    requires Exists(c, a) && Exists(c, b) && Before(a, b)
    ensures 0 < Left(c, b) < Left(c, a)
  {
  }

  /** What a lookup leaves in its request. */
  function LookedUp(r: Request, o: Outcome): Request {
    r.(user := o.user,
       failed := r.failed || o.failed,
       validClientCert := r.validClientCert || o.validCert,
       requestedLoginUser := if o.loginUser.Some? then o.loginUser else r.requestedLoginUser)
  }

  /** auth_request_verify_plain_passdb_callback(): NEXT takes the place of success if "noauthenticate" is set. */
  function ResultOf(o: Outcome): Result {
    if o.result == Ok && o.noauthenticate then Next else o.result
  }

  ghost function LoginAfter(v: Visit): Option<string> {
    if MasterLogin(v) && !v.uncertified then None else v.login
  }

  ghost function LoginNow(login: Option<string>, trace: seq<Visit>): Option<string> {
    if trace == [] then login else LoginAfter(trace[|trace| - 1])
  }

  ghost predicate Rejected(trace: seq<Visit>) {
    trace != [] && trace[|trace| - 1].uncertified
  }

  ghost predicate Certified(cert: bool, outcomes: seq<Outcome>) {
    cert || exists k :: 0 <= k < |outcomes| && outcomes[k].validCert
  }

  /** A request is marked failed if its last lookup lacked a required client certificate, and otherwise only by a
      database that denies. */
  ghost predicate MarkedFailed(r: Request, trace: seq<Visit>) {
    if trace == [] then !r.failed
    else && (trace[|trace| - 1].uncertified ==> r.failed)
         && (r.failed ==> trace[|trace| - 1].uncertified || Denied(trace[|trace| - 1]))
  }

  /** auth_request_verify_plain_callback_finish(): the request ends, or goes on to the next lookup. */
  method LookupReturned(c: Config, r: Request, o: Outcome, ghost trace: seq<Visit>)
    returns (r': Request, result: Option<Result>)
    requires Looking(c, r) && Flags(r, trace) && !HasIllegalChars(c.password)
    ensures var t := trace + [VisitOf(c, LookedUp(r, o), ResultOf(o))];
            (result.Some? <==> Following(c, t).None?)
            && if result.Some? then Ended(t, result.value) && r'.passdbSuccess == LastWord(t)
                                    && result.value == ResultAfter(c, None, t)
               else Flags(r', t) && Looking(c, r') && r'.passdb == Following(c, t)
    ensures var v := VisitOf(c, LookedUp(r, o), ResultOf(o));
            MarkedFailed(r', trace + [v])
            && r'.validClientCert == LookedUp(r, o).validClientCert
            && (result.None? ==> r'.failed == v.uncertified && r'.requestedLoginUser == LoginAfter(v))
    ensures !c.requireClientCert && o.loginUser.None? && result.None?
            && r.requestedLoginUser.Some? == r.passdb.value.master ==>
              Before(r.passdb.value, r'.passdb.value) && r'.requestedLoginUser.Some? == r'.passdb.value.master
  {
    var before := LookedUp(r, o);
    ghost var v := VisitOf(c, before, ResultOf(o));
    Appended(trace, v);
    var finished, verdict;
    r', finished, verdict := HandleCallback(c, before, ResultOf(o), trace);
    if finished {
      result := Some(verdict);
    } else {
      r', result := LookUpNext(c, r', before, trace + [v], v);
    }
  }

  /** The chain goes on, unless all databases that are left are to be skipped for the user who has taken over. */
  method LookUpNext(c: Config, waiting: Request, ghost before: Request, ghost t: seq<Visit>, ghost v: Visit)
    returns (r': Request, result: Option<Result>)
    requires t != [] && t[|t| - 1] == v && !Ends(c, t) && Flags(waiting, t) && Looking(c, waiting)
    requires Advanced(c, v, before, waiting) && !HasIllegalChars(c.password)
    ensures r' == waiting.(passdb := r'.passdb) && (result.Some? <==> Following(c, t).None?)
    ensures result.Some? ==> Ended(t, result.value) && result.value == ResultAfter(c, None, t)
    ensures result.None? ==> Looking(c, r') && r'.passdb == Following(c, t) && Flags(r', t)
    ensures before.passdb == Some(v.pos) && v.login == before.requestedLoginUser && !v.uncertified && result.None?
            && v.login.Some? == v.pos.master ==>
              Before(v.pos, r'.passdb.value) && r'.requestedLoginUser.Some? == r'.passdb.value.master
  {
    assert Following(c, t) == FirstFrom(c, waiting.user, waiting.skipPasswordCheck, waiting.passdb.value);
    r', result := VerifyPlainContinue(c, waiting);
    if before.passdb == Some(v.pos) && v.login == before.requestedLoginUser && !v.uncertified && result.None?
       && v.login.Some? == v.pos.master {
      OnwardBefore(c, v, before, waiting, r');
    }
  }

  /** The i-th lookup of a request of this user as the database returned it. What earlier lookups left are the login
      user, client certificates, and the mark that a certificate was missing. */
  ghost predicate FromOutcome(c: Config, login: Option<string>, cert: bool, trace: seq<Visit>, outcomes: seq<Outcome>,
                              i: nat)
    requires i < |trace| && i < |outcomes|
  {
    var v, o := trace[i], outcomes[i];
    && v.result == ResultOf(o) && v.user == o.user
    && v.failed == (o.failed || Rejected(trace[..i]))
    && v.login == (if o.loginUser.Some? then o.loginUser else LoginNow(login, trace[..i]))
    && v.uncertified == (v.result == Ok && c.requireClientCert && !Certified(cert, outcomes[..i + 1]))
  }

  ghost predicate FromOutcomes(c: Config, login: Option<string>, cert: bool, trace: seq<Visit>, outcomes: seq<Outcome>)
  {
    |trace| <= |outcomes| && forall i: nat :: i < |trace| ==> FromOutcome(c, login, cert, trace, outcomes, i)
  }

  lemma FromOutcomesNext(c: Config, login: Option<string>, cert: bool, trace: seq<Visit>, outcomes: seq<Outcome>,
                         v: Visit, o: Outcome)
    requires FromOutcomes(c, login, cert, trace, outcomes) && |trace| == |outcomes|
    requires v.result == ResultOf(o) && v.user == o.user && v.failed == (o.failed || Rejected(trace))
    requires v.login == if o.loginUser.Some? then o.loginUser else LoginNow(login, trace)
    requires v.uncertified == (v.result == Ok && c.requireClientCert && !(Certified(cert, outcomes) || o.validCert))
    ensures FromOutcomes(c, login, cert, trace + [v], outcomes + [o])
    ensures Certified(cert, outcomes + [o]) <==> Certified(cert, outcomes) || o.validCert
  {
    var t, os := trace + [v], outcomes + [o];
    CertifiedNext(cert, outcomes, o);
    forall i: nat | i < |t| ensures FromOutcome(c, login, cert, t, os, i) {
      assert t[..i] == trace[..i];
      if i < |trace| {
        assert FromOutcome(c, login, cert, trace, outcomes, i);
        assert os[..i + 1] == outcomes[..i + 1];
      } else {
        assert trace[..i] == trace && os[..i + 1] == os;
      }
    }
  }

  lemma CertifiedNext(cert: bool, outcomes: seq<Outcome>, o: Outcome)
    ensures Certified(cert, outcomes + [o]) <==> Certified(cert, outcomes) || o.validCert
  {
    var os := outcomes + [o];
    assert os[|outcomes|] == o;
    if k :| 0 <= k < |outcomes| && outcomes[k].validCert {
      assert os[k].validCert;
    }
  }

  class AuthRequest {
    const c: Config
    const user: string
    const login: Option<string>
    const cert: bool
    var r: Request
    var result: Option<Result>          // given to the callback
    var trace: seq<Visit>
    ghost var outcomes: seq<Outcome>

    ghost predicate Valid()
      reads this
    {
      && MarkedFailed(r, trace) && |trace| == |outcomes|
      && InTurn(c, user, login, trace) && FromOutcomes(c, login, cert, trace, outcomes)
      && (result.Some? <==> Consulted(c, user, login, trace).None?)
      && if result.Some? then
           && Ended(trace, result.value) && r.passdbSuccess == LastWord(trace)
           && result.value == ResultAfter(c, login, trace)
         else
           && Flags(r, trace) && Looking(c, r) && !HasIllegalChars(c.password)
           && r.passdb == Consulted(c, user, login, trace) && r.failed == Rejected(trace)
           && r.requestedLoginUser == LoginNow(login, trace) && r.validClientCert == Certified(cert, outcomes)
    }

    /** A master login is pending exactly while the master databases are consulted. */
    ghost predicate Straight()
      reads this
    {
      result.None? ==>
        && !c.requireClientCert && r.passdb.Some?
        && r.requestedLoginUser.Some? == r.passdb.value.master
    }

    /** A request starts with the first database of its list. */
    constructor (c: Config, user: string, loginUser: Option<string>, validClientCert: bool)
      ensures Valid() && trace == [] && outcomes == []
      ensures this.c == c && this.user == user && this.login == loginUser && this.cert == validClientCert
      ensures !c.requireClientCert ==> Straight() && Onwards()
    {
      var dbs := Dbs(c, loginUser.Some?);
      var start := if dbs == [] then None else Some(Pos(loginUser.Some?, 0));
      var req := Request(start, user, loginUser, validClientCert, false, false, false, false, false);
      var r', res := VerifyPlainContinue(c, req);
      this.c, this.user, this.login, this.cert := c, user, loginUser, validClientCert;
      r, result, trace, outcomes := r', res, [], [];
    }

    /** A lookup returns, and the request goes on to the next one or ends. */
    method PassdbCallback(o: Outcome)
      requires Valid() && result.None?
      modifies this
      ensures Valid() && outcomes == old(outcomes) + [o]
      ensures trace == old(trace) + [VisitOf(c, LookedUp(old(r), o), ResultOf(o))]
      ensures old(Straight()) && o.loginUser.None? && result.None? ==>
                Straight() && Before(old(r).passdb.value, r.passdb.value)
    {
      var v := VisitOf(c, LookedUp(r, o), ResultOf(o));
      InTurnNext(c, user, login, trace, v);
      FromOutcomesNext(c, login, cert, trace, outcomes, v, o);
      var r', res := LookupReturned(c, r, o, trace);
      trace, outcomes := trace + [v], outcomes + [o];
      r, result := r', res;
    }

    /** The request has consulted each database at most once, in order, and those that are left come later. */
    ghost predicate Onwards()
      reads this
    {
      && Straight() && InListOrder(trace) && |trace| <= |c.masterdbs| + |c.passdbs|
      && (result.None? ==>
            && r.passdb.Some? && |trace| + Left(c, r.passdb.value) <= |c.masterdbs| + |c.passdbs|
            && (trace != [] ==> Before(trace[|trace| - 1].pos, r.passdb.value)))
    }

    method StepOn(o: Outcome)
      requires Valid() && Onwards() && result.None? && o.loginUser.None?
      modifies this
      ensures Valid() && Onwards() && outcomes == old(outcomes) + [o] && |trace| == old(|trace|) + 1
      ensures result.None? ==> 0 < Left(c, r.passdb.value) < old(Left(c, r.passdb.value))
    {
      ghost var at := r.passdb.value;
      InListOrderAppend(trace, VisitOf(c, LookedUp(r, o), ResultOf(o)));
      PassdbCallback(o);
      if result.None? {
        LeftDecreases(c, at, r.passdb.value);
      }
    }

    /** auth_request_success_continue() */
    predicate Succeeds()
      reads this
    {
      result == Some(Ok) && !r.failed && r.passdbSuccess
    }
  }

  /** A request through any lookups. They are made in the databases whose turn it is, the request ends exactly when it
      is no database's turn, and what it returns then follows from its trace. */
  method Authenticate(c: Config, user: string, loginUser: Option<string>, validClientCert: bool, outcomes: seq<Outcome>)
    returns (ended: Option<Result>, success: bool, trace: seq<Visit>)
    ensures InTurn(c, user, loginUser, trace) && FromOutcomes(c, loginUser, validClientCert, trace, outcomes)
    ensures ended.Some? <==> Consulted(c, user, loginUser, trace).None?
    ensures ended.Some? ==> ended.value == ResultAfter(c, loginUser, trace)
    ensures ended.Some? ==> Ended(trace, ended.value) && ended.value != Next
    ensures success <==> ended == Some(Ok) && LastWord(trace) && !Rejected(trace)
    ensures !c.requireClientCert ==> (success <==> ended == Some(Ok) && LastWord(trace))
    ensures success ==> forall i :: 0 <= i < |trace| && trace[i].db.deny ==> trace[i].result == UserUnknown
    ensures ended.None? ==> |trace| == |outcomes|
  {
    var q := new AuthRequest(c, user, loginUser, validClientCert);
    var n := 0;
    while n < |outcomes| && q.result.None?
      invariant q.Valid() && fresh(q) && n <= |outcomes| && |q.trace| == n && q.outcomes == outcomes[..n]
      invariant q.c == c && q.user == user && q.login == loginUser && q.cert == validClientCert
    {
      q.PassdbCallback(outcomes[n]);
      n := n + 1;
    }
    ended, success, trace := q.result, q.Succeeds(), q.trace;
    FromPrefix(c, loginUser, validClientCert, trace, outcomes, n);
    SuccessExact(c, trace, ended, q.r, success);
    assert trace != [] ==> FromOutcome(c, loginUser, validClientCert, trace, outcomes, |trace| - 1);
  }

  lemma FromPrefix(c: Config, login: Option<string>, cert: bool, trace: seq<Visit>, outcomes: seq<Outcome>, n: nat)
    requires n <= |outcomes| && |trace| == n && FromOutcomes(c, login, cert, trace, outcomes[..n])
    ensures FromOutcomes(c, login, cert, trace, outcomes)
  {
    forall i: nat | i < |trace| ensures FromOutcome(c, login, cert, trace, outcomes, i) {
      assert FromOutcome(c, login, cert, trace, outcomes[..n], i);
      assert outcomes[..n][..i + 1] == outcomes[..i + 1];
    }
  }

  /** A request that ended succeeds exactly if the result is ok by the last word and no certificate was missing. */
  lemma SuccessExact(c: Config, trace: seq<Visit>, ended: Option<Result>, r: Request, success: bool)
    requires MarkedFailed(r, trace) && success == (ended == Some(Ok) && !r.failed && r.passdbSuccess)
    requires ended.Some? ==> Ended(trace, ended.value) && r.passdbSuccess == LastWord(trace)
    ensures success <==> ended == Some(Ok) && LastWord(trace) && !Rejected(trace)
    ensures success ==> forall i :: 0 <= i < |trace| && trace[i].db.deny ==> trace[i].result == UserUnknown
    ensures ended != Some(Next)
  {
    if ended.Some? {
      NeverNext(trace, ended.value);
    }
    if ended == Some(Ok) && LastWord(trace) {
      SuccessMeans(trace, Ok);
      assert !Stops(trace[|trace| - 1]);
    }
  }

  /** A request whose lookups do not ask for another user, where no client certificate is required, always
      ends, having consulted each database at most once. */
  method AuthenticateToEnd(c: Config, user: string, loginUser: Option<string>, validClientCert: bool,
                           lookup: nat -> Outcome)
    returns (result: Result, success: bool, trace: seq<Visit>)
    requires !c.requireClientCert && forall n :: lookup(n).loginUser.None?
    ensures InTurn(c, user, loginUser, trace) && Consulted(c, user, loginUser, trace).None?
    ensures FromOutcomes(c, loginUser, validClientCert, trace, OutcomesOf(lookup, |trace|))
    ensures result == ResultAfter(c, loginUser, trace)
    ensures Ended(trace, result) && InListOrder(trace) && |trace| <= |c.masterdbs| + |c.passdbs|
    ensures success <==> result == Ok && LastWord(trace)
  {
    var q := new AuthRequest(c, user, loginUser, validClientCert);
    while q.result.None?
      invariant q.Valid() && fresh(q) && q.Onwards() && q.outcomes == OutcomesOf(lookup, |q.trace|)
      invariant q.c == c && q.user == user && q.login == loginUser && q.cert == validClientCert
      decreases if q.result.None? then Left(c, q.r.passdb.value) else 0
    {
      q.StepOn(lookup(|q.trace|));
    }
    result, success, trace := q.result.value, q.Succeeds(), q.trace;
    SuccessExact(c, trace, q.result, q.r, success);
    assert trace != [] ==> FromOutcome(c, loginUser, validClientCert, trace, q.outcomes, |trace| - 1);
  }

  ghost function OutcomesOf(lookup: nat -> Outcome, n: nat): seq<Outcome> {
    if n == 0 then [] else OutcomesOf(lookup, n - 1) + [lookup(n - 1)]
  }

  // ---- What the rules amount to ----

  ghost predicate SaysOk(rule: Rule) {
    rule.ReturnOk? || rule.ContinueOk?
  }

  /** If no rule for failures ever says ok, a request that succeeds had a lookup that did. */
  lemma {:induction false} OkNeedsOk(trace: seq<Visit>)
    requires forall i :: 0 <= i < |trace| ==> !SaysOk(trace[i].db.failure) && !SaysOk(trace[i].db.internalfail)
    requires LastWord(trace)
    ensures exists i :: 0 <= i < |trace| && trace[i].result == Ok && !trace[i].failed && SaysOk(trace[i].db.success)
  {
    var n := |trace| - 1;
    if !(trace[n].result == Ok && !trace[n].failed && SaysOk(trace[n].db.success)) {
      OkNeedsOk(trace[..n]);
      var i :| 0 <= i < n && trace[..n][i].result == Ok && !trace[..n][i].failed && SaysOk(trace[..n][i].db.success);
      assert trace[i].result == Ok && !trace[i].failed && SaysOk(trace[i].db.success);
    }
  }

  /** A database is consulted only for mechanisms and users it accepts, and only before or after the password has been
      verified if it is to be skipped otherwise. */
  lemma ConsultedRight(c: Config, user: string, login: Option<string>, trace: seq<Visit>, i: nat)
    requires InTurn(c, user, login, trace) && i < |trace|
    ensures var db := trace[i].db;
            db.acceptsMech
            && db.acceptsUser(if i == 0 then user else UserAfter(trace[i - 1]))
            && (db.skip.SkipAuthenticated? ==> !Authenticated(trace[..i]))
            && (db.skip.SkipUnauthenticated? ==> Authenticated(trace[..i]))
  {
    assert InTurnAt(c, user, login, trace, i);
  }

  /** Exactly the databases to be skipped are passed over. */
  lemma {:induction false} PassedOver(c: Config, user: string, authenticated: bool, pos: Pos, k: nat)
    requires pos.idx <= k < |Dbs(c, pos.master)|
    ensures var next := FirstFrom(c, user, authenticated, pos);
            (next.None? || k < next.value.idx) ==> WantSkip(Db(c, Pos(pos.master, k)), user, authenticated)
    decreases k - pos.idx
  {
    if pos.idx < k && WantSkip(Db(c, pos), user, authenticated) {
      PassedOver(c, user, authenticated, Pos(pos.master, pos.idx + 1), k);
    }
  }

  /** Where the list of the database to be consulted next begins to be looked through. */
  ghost function Resumes(login: Option<string>, trace: seq<Visit>): Pos {
    if trace == [] then Pos(login.Some?, 0)
    else
      var v := trace[|trace| - 1];
      if MasterLogin(v) then Pos(false, 0) else Pos(v.pos.master, v.pos.idx + 1)
  }

  /** No database is missed: the ones passed over, and all that are left when the chain runs out, do not accept the
      mechanism or the user, or are to be skipped as it is known whether the password has been verified. The user is the
      one of the last lookup, or the login user who has taken over. */
  lemma NoneMissed(c: Config, user: string, login: Option<string>, trace: seq<Visit>, k: nat)
    requires trace == [] ==>
               '\U{1}' !in c.password && '\t' !in c.password && '\r' !in c.password && '\n' !in c.password
    requires trace != [] ==> !Stops(trace[|trace| - 1]) && Continues(RuleFor(trace[|trace| - 1]))
    requires var next, from := Consulted(c, user, login, trace), Resumes(login, trace);
             && from.idx <= k < |Dbs(c, from.master)|
             && (next.Some? ==> k < next.value.idx)
    ensures var next, from := Consulted(c, user, login, trace), Resumes(login, trace);
            next.Some? ==> next.value.master == from.master && from.idx <= next.value.idx
    ensures var db, done := Dbs(c, Resumes(login, trace).master)[k], Authenticated(trace);
            || !db.acceptsMech
            || (db.skip.SkipAuthenticated? && done)
            || (db.skip.SkipUnauthenticated? && !done)
            || (trace == [] && !db.acceptsUser(user))
            || (trace != [] && !db.acceptsUser(trace[|trace| - 1].user))
            || (trace != [] && !db.acceptsUser(UserAfter(trace[|trace| - 1])))
  {
    var from, done := Resumes(login, trace), Authenticated(trace);
    if trace == [] {
      assert !HasIllegalChars(c.password);
      PassedOver(c, user, false, from, k);
    } else {
      var v := trace[|trace| - 1];
      var next := FirstFrom(c, v.user, done, from);
      PassedOver(c, v.user, done, from, k);
      if next.Some? && next.value.idx <= k {
        PassedOver(c, UserAfter(v), done, next.value, k);
      }
    }
  }

  /** With one of four control characters in the password no database is consulted. */
  lemma ControlCharacters(c: Config, user: string, login: Option<string>)
    requires '\U{1}' in c.password || '\t' in c.password || '\r' in c.password || '\n' in c.password
    ensures Consulted(c, user, login, []).None? && ResultAfter(c, login, []) == UserUnknown
  {
    var i :| 0 <= i < |c.password| && c.password[i] in {'\U{1}', '\t', '\r', '\n'};
  }

  /** A lookup counts as ok exactly if the database said so and did not set "noauthenticate"; any failure stays. */
  lemma LookupCounts(c: Config, login: Option<string>, cert: bool, trace: seq<Visit>, outcomes: seq<Outcome>, i: nat)
    requires FromOutcomes(c, login, cert, trace, outcomes) && i < |trace|
    ensures trace[i].result == Ok <==> outcomes[i].result == Ok && !outcomes[i].noauthenticate
    ensures outcomes[i].result != Ok ==> trace[i].result == outcomes[i].result
    ensures outcomes[i].result == Ok && outcomes[i].noauthenticate ==> trace[i].result == Next
  {
    assert FromOutcome(c, login, cert, trace, outcomes, i);
  }

  /** The password counts as verified once a lookup returned ok under a rule that continues, or a rule continues with
      ok. */
  lemma {:induction false} AuthenticatedIff(trace: seq<Visit>)
    ensures Authenticated(trace) <==> exists i :: 0 <= i < |trace| && VerifiesAt(trace[i])
  {
    if trace != [] {
      var n := |trace| - 1;
      AuthenticatedIff(trace[..n]);
      if i :| 0 <= i < n && VerifiesAt(trace[..n][i]) {
        assert VerifiesAt(trace[i]);
      }
      if i :| 0 <= i < |trace| && VerifiesAt(trace[i]) && i < n {
        assert VerifiesAt(trace[..n][i]);
      }
    }
  }
}
