/** The middleware that checks a request before a handler runs (index.js:36-120)
    and the way a route chains them (index.js:122-128, 140-146, 159). */
module Validation {
  import opened Types

  // The fixed messages of the checks.
  const TokenNotFound := "Token não encontrado"
  const TokenInvalid := "Token inválido"
  const NameRequired := "O campo \"name\" é obrigatório"
  const NameTooShort := "O \"name\" deve ter pelo menos 3 caracteres"
  const AgeRequired := "O campo \"age\" é obrigatório"
  const AgeUnderage := "A pessoa palestrante deve ser maior de idade"
  const TalkRequired := "O campo \"talk\" é obrigatório e \"watchedAt\" e \"rate\" não podem ser vazios"
  const WatchedAtFormat := "O campo \"watchedAt\" deve ter o formato \"dd/mm/aaaa\""
  const RateRange := "O campo \"rate\" deve ser um inteiro de 1 à 5"
  const EmailRequired := "O campo \"email\" é obrigatório"
  const EmailFormat := "O \"email\" deve ter o formato \"email@email.com\""
  const PasswordRequired := "O campo \"password\" é obrigatório"
  const PasswordTooShort := "O \"password\" deve ter pelo menos 6 caracteres"

  const AuthorizationLength := 16
  const NameLength := 3
  const AgeYears := 18
  const PasswordLength := 6

  /** The `authorization` header must be present, non-empty and exactly 16
      characters long; its content is never looked at. */
  function AuthorizationToken(req: Request): (c: Check)
    ensures c.Pass? <==> req.authorization.Some? && |req.authorization.value| == AuthorizationLength
    ensures c == Reject(401, TokenNotFound) <==> MissingText(req.authorization)
    ensures c == Reject(401, TokenInvalid) <==>
              !MissingText(req.authorization) && |req.authorization.value| != AuthorizationLength
  {
    if MissingText(req.authorization) then Reject(401, TokenNotFound)
    else if |req.authorization.value| != AuthorizationLength then Reject(401, TokenInvalid)
    else Pass
  }

  /** The name must be present and longer than three characters: a name of
      exactly three is refused, although the message says "at least 3". */
  function NameValidation(req: Request): (c: Check)
    ensures c.Pass? <==> req.body.name.Some? && |req.body.name.value| > NameLength
    ensures c == Reject(400, NameRequired) <==> MissingText(req.body.name)
    ensures c == Reject(400, NameTooShort) <==>
              req.body.name.Some? && 0 < |req.body.name.value| <= NameLength
  {
    if MissingText(req.body.name) then Reject(400, NameRequired)
    else if |req.body.name.value| <= NameLength then Reject(400, NameTooShort)
    else Pass
  }

  /** The age must be present, not 0, and above 18. */
  function AgeValidation(req: Request): (c: Check)
    ensures c.Pass? <==> req.body.age.Some? && req.body.age.value > AgeYears
    ensures c == Reject(400, AgeRequired) <==> MissingNumber(req.body.age)
    ensures c == Reject(400, AgeUnderage) <==>
              req.body.age.Some? && req.body.age.value != 0 && req.body.age.value <= AgeYears
  {
    if MissingNumber(req.body.age) then Reject(400, AgeRequired)
    else if req.body.age.value <= AgeYears then Reject(400, AgeUnderage)
    else Pass
  }

  /** The `talk` object must be present (any object, even an empty one, is). */
  function TalkerValidation(req: Request): (c: Check)
    ensures c.Pass? <==> req.body.talk.Some?
    ensures !c.Pass? ==> c == Reject(400, TalkRequired)
  {
    if req.body.talk.None? then Reject(400, TalkRequired) else Pass
  }

  /** The sub-fields of `talk`: both must be defined, `watchedAt` must have the
      shape dd/dd/dddd, and `rate` must lie in 1..5, checked in that order.
      Destructuring a missing `talk` throws, which is a crash. */
  function TalkerInfoValidation(req: Request): (c: Check)
    ensures c.Crash? <==> req.body.talk.None?
    ensures c.Pass? <==>
              && req.body.talk.Some?
              && req.body.talk.value.watchedAt.Some? && req.body.talk.value.rate.Some?
              && IsDateShape(req.body.talk.value.watchedAt.value)
              && 1 <= req.body.talk.value.rate.value <= 5
    ensures c == Reject(400, TalkRequired) <==>
              req.body.talk.Some? && (req.body.talk.value.watchedAt.None? || req.body.talk.value.rate.None?)
    ensures c == Reject(400, WatchedAtFormat) <==>
              && req.body.talk.Some?
              && req.body.talk.value.watchedAt.Some? && req.body.talk.value.rate.Some?
              && !IsDateShape(req.body.talk.value.watchedAt.value)
    ensures c == Reject(400, RateRange) <==>
              && req.body.talk.Some?
              && req.body.talk.value.watchedAt.Some? && req.body.talk.value.rate.Some?
              && IsDateShape(req.body.talk.value.watchedAt.value)
              && !(1 <= req.body.talk.value.rate.value <= 5)
  {
    match req.body.talk
    case None => Crash
    case Some(TalkField(watchedAt, rate)) =>
      if watchedAt.None? || rate.None? then Reject(400, TalkRequired)
      else
        DateShapeByPosition(watchedAt.value);
        if !WatchedAtMatches(watchedAt.value) then Reject(400, WatchedAtFormat)
        else if rate.value < 1 || rate.value > 5 then Reject(400, RateRange)
        else Pass
  }

  /** The login check: email present, email accepted by the format test,
      password present, password at least six characters, in that order.
      The email regular expression is the parameter `emailOk`. */
  function EmailAndPassword(req: Request, emailOk: string -> bool): (c: Check)
    ensures !c.Crash?
    ensures c.Pass? <==>
              && !MissingText(req.body.email) && emailOk(req.body.email.value)
              && req.body.password.Some? && |req.body.password.value| >= PasswordLength
    ensures c == Reject(400, EmailRequired) <==> MissingText(req.body.email)
    ensures c == Reject(400, EmailFormat) <==>
              !MissingText(req.body.email) && !emailOk(req.body.email.value)
    ensures c == Reject(400, PasswordRequired) <==>
              !MissingText(req.body.email) && emailOk(req.body.email.value) && MissingText(req.body.password)
    ensures c == Reject(400, PasswordTooShort) <==>
              && !MissingText(req.body.email) && emailOk(req.body.email.value)
              && req.body.password.Some? && 0 < |req.body.password.value| < PasswordLength
  {
    if MissingText(req.body.email) then Reject(400, EmailRequired)
    else if !emailOk(req.body.email.value) then Reject(400, EmailFormat)
    else if MissingText(req.body.password) then Reject(400, PasswordRequired)
    else if |req.body.password.value| < PasswordLength then Reject(400, PasswordTooShort)
    else Pass
  }

  // ---------------------------------------------------------------------------
  // The watchedAt pattern /^\d{2}\/\d{2}\/\d{4}$/

  /** One position of an anchored pattern without alternatives: `\d` or a literal. */
  datatype Atom = AnyDigit | Literal(c: char)

  /** JavaScript's `\d`: an ASCII digit only. */
  predicate IsDigit(c: char)
  {
    '0' <= c <= '9'
  }

  predicate AtomMatches(a: Atom, c: char)
  {
    match a
    case AnyDigit => IsDigit(c)
    case Literal(l) => c == l
  }

  function Repeat(a: Atom, n: nat): (p: seq<Atom>)
    ensures |p| == n && forall i :: 0 <= i < n ==> p[i] == a
  {
    if n == 0 then [] else [a] + Repeat(a, n - 1)
  }

  /** The pattern `\d{2}/\d{2}/\d{4}`, its counted repetitions written out. */
  function DatePattern(): seq<Atom>
  {
    Repeat(AnyDigit, 2) + [Literal('/')] + Repeat(AnyDigit, 2) + [Literal('/')] + Repeat(AnyDigit, 4)
  }

  /** `^p$`: the pattern matches the whole string, atom by atom. */
  predicate MatchesWhole(p: seq<Atom>, s: string)
    decreases |p|
  {
    if p == [] then s == []
    else s != [] && AtomMatches(p[0], s[0]) && MatchesWhole(p[1..], s[1..])
  }

  predicate WatchedAtMatches(s: string)
  {
    MatchesWhole(DatePattern(), s)
  }

  /** The shape of a watchedAt value stated position by position: ten
      characters, slashes at the third and sixth, digits everywhere else. */
  predicate IsDateShape(s: string)
  {
    && |s| == 10
    && s[2] == '/' && s[5] == '/'
    && forall i :: 0 <= i < 10 && i != 2 && i != 5 ==> IsDigit(s[i])
  }

  /** An anchored pattern matches exactly the strings of its length whose
      characters match it position by position. */
  lemma {:induction false} MatchesWholeByPosition(p: seq<Atom>, s: string)
    ensures MatchesWhole(p, s) <==>
              |p| == |s| && forall i :: 0 <= i < |p| ==> AtomMatches(p[i], s[i])
    decreases |p|
  {
    if p != [] && s != [] {
      MatchesWholeByPosition(p[1..], s[1..]);
      if |p| == |s| && forall i :: 0 <= i < |p| ==> AtomMatches(p[i], s[i]) {
        assert forall i :: 0 <= i < |p[1..]| ==> AtomMatches(p[1..][i], s[1..][i]) by {
          forall i | 0 <= i < |p[1..]| ensures AtomMatches(p[1..][i], s[1..][i]) {
            assert p[1..][i] == p[i + 1] && s[1..][i] == s[i + 1];
          }
        }
      }
      if MatchesWhole(p, s) {
        forall i | 0 <= i < |p| ensures AtomMatches(p[i], s[i]) {
          if i > 0 {
            assert p[1..][i - 1] == p[i] && s[1..][i - 1] == s[i];
          }
        }
      }
    }
  }

  /** The regular expression accepts exactly the strings of the dd/dd/dddd shape,
      whatever the digits (so 99/99/9999 passes). */
  lemma DateShapeByPosition(s: string)
    ensures WatchedAtMatches(s) <==> IsDateShape(s)
  {
    var p := DatePattern();
    MatchesWholeByPosition(p, s);
    assert |p| == 10;
    assert forall i :: 0 <= i < 10 && i != 2 && i != 5 ==> p[i] == AnyDigit;
    assert p[2] == Literal('/') && p[5] == Literal('/');
  }

  // ---------------------------------------------------------------------------
  // Chaining

  /** Runs the middleware in order and stops at the first one that does not
      hand over. */
  function RunChain(checks: seq<Request -> Check>, req: Request): Check
  {
    if checks == [] then Pass
    else if !checks[0](req).Pass? then checks[0](req)
    else RunChain(checks[1..], req)
  }

  /** The chain lets a request through exactly when every middleware does, and
      otherwise answers what the first refusing middleware answers. */
  lemma {:induction false} RunChainFirstFailure(checks: seq<Request -> Check>, req: Request)
    ensures RunChain(checks, req).Pass? <==> forall i :: 0 <= i < |checks| ==> checks[i](req).Pass?
    ensures !RunChain(checks, req).Pass? ==>
              exists k :: 0 <= k < |checks| && checks[k](req) == RunChain(checks, req) &&
                forall j :: 0 <= j < k ==> checks[j](req).Pass?
    decreases |checks|
  {
    if checks != [] && checks[0](req).Pass? {
      var rest := checks[1..];
      RunChainFirstFailure(rest, req);
      assert forall i :: 0 < i < |checks| ==> checks[i] == rest[i - 1];
      if !RunChain(rest, req).Pass? {
        var k :| 0 <= k < |rest| && rest[k](req) == RunChain(rest, req) &&
                 forall j :: 0 <= j < k ==> rest[j](req).Pass?;
        assert checks[k + 1](req) == RunChain(checks, req);
        forall j | 0 <= j < k + 1 ensures checks[j](req).Pass? {
          if j > 0 { assert checks[j] == rest[j - 1]; }
        }
      }
    }
  }

  /** The middleware in front of POST /talker and PUT /talker/:id. */
  function TalkerChain(): seq<Request -> Check>
  {
    [AuthorizationToken, NameValidation, AgeValidation, TalkerValidation, TalkerInfoValidation]
  }

  /** The middleware in front of DELETE /talker/:id. */
  function DeleteChain(): seq<Request -> Check>
  {
    [AuthorizationToken]
  }

  /** What a request must look like to get through the talker chain, stated on
      the request alone. */
  predicate WellFormedTalkerRequest(req: Request)
  {
    && req.authorization.Some? && |req.authorization.value| == AuthorizationLength
    && req.body.name.Some? && |req.body.name.value| > NameLength
    && req.body.age.Some? && req.body.age.value > AgeYears
    && req.body.talk.Some?
    && req.body.talk.value.watchedAt.Some? && IsDateShape(req.body.talk.value.watchedAt.value)
    && req.body.talk.value.rate.Some? && 1 <= req.body.talk.value.rate.value <= 5
  }

  /** The talker chain reports the first failing check in the order
      authorization, name, age, talk, talk fields. */
  lemma TalkerChainFirstFailure(req: Request)
    ensures var c := RunChain(TalkerChain(), req);
      if !AuthorizationToken(req).Pass? then c == AuthorizationToken(req)
      else if !NameValidation(req).Pass? then c == NameValidation(req)
      else if !AgeValidation(req).Pass? then c == AgeValidation(req)
      else if !TalkerValidation(req).Pass? then c == TalkerValidation(req)
      else c == TalkerInfoValidation(req)
  {
    var cs := TalkerChain();
    var cs1 := [NameValidation, AgeValidation, TalkerValidation, TalkerInfoValidation];
    var cs2 := [AgeValidation, TalkerValidation, TalkerInfoValidation];
    var cs3 := [TalkerValidation, TalkerInfoValidation];
    var cs4 := [TalkerInfoValidation];
    assert cs[1..] == cs1 && cs1[1..] == cs2 && cs2[1..] == cs3 && cs3[1..] == cs4 && cs4[1..] == [];
    assert RunChain(cs4, req) == TalkerInfoValidation(req);
    assert RunChain(cs3, req) == if TalkerValidation(req).Pass? then RunChain(cs4, req) else TalkerValidation(req);
    assert RunChain(cs2, req) == if AgeValidation(req).Pass? then RunChain(cs3, req) else AgeValidation(req);
    assert RunChain(cs1, req) == if NameValidation(req).Pass? then RunChain(cs2, req) else NameValidation(req);
  }

  /** A request gets through the talker chain exactly when it is well formed. */
  lemma TalkerChainPassIff(req: Request)
    ensures RunChain(TalkerChain(), req).Pass? <==> WellFormedTalkerRequest(req)
  {
    TalkerChainFirstFailure(req);
  }

  /** The talker chain never throws: `talk` is checked for presence before its
      sub-fields are destructured. */
  lemma TalkerChainNeverCrashes(req: Request)
    ensures !RunChain(TalkerChain(), req).Crash?
  {
    TalkerChainFirstFailure(req);
  }

  /** A valid token with neither name nor age reports the missing name. */
  lemma NameReportedBeforeAge(req: Request)
    requires AuthorizationToken(req).Pass?
    requires req.body.name.None? && req.body.age.None?
    ensures RunChain(TalkerChain(), req) == Reject(400, NameRequired)
  {
    TalkerChainFirstFailure(req);
  }

  /** A header that is present but empty counts as a missing token, and a
      request with no token is refused before anything in its body is looked at. */
  lemma MissingTokenReportedFirst(req: Request)
    requires MissingText(req.authorization)
    ensures RunChain(TalkerChain(), req) == Reject(401, TokenNotFound)
    ensures RunChain(DeleteChain(), req) == Reject(401, TokenNotFound)
  {
    TalkerChainFirstFailure(req);
  }

  /** DELETE runs only the token check. */
  lemma DeleteChainIsAuthorization(req: Request)
    ensures RunChain(DeleteChain(), req) == AuthorizationToken(req)
  {
    assert DeleteChain()[0] == AuthorizationToken;
  }
}
