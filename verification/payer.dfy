/** Who is billed: the payers of a request and of its rules, stamped onto the rules in place, and the
    server's check of them. */
module Payer {
  import opened Wrappers
  import opened Uuids

  datatype PayerError = Required | NotAUuid(text: string)

  /** The caller's own identity: it has to be named. */
  function ResolveRequestPayer(lib: Library, requestPayer: string): Result<Uuid, PayerError> {
    if requestPayer != "" then
      match lib.Parse(requestPayer)
      case None => Failure(NotAUuid(requestPayer))
      case Some(u) => if u != NIL then Success(u) else Failure(Required)
    else Failure(Required)
  }

  /** A rule keeps the payer it names; one that names nobody inherits the request's. */
  function ResolveRulePayer(lib: Library, rulePayer: string, requestPayer: Uuid): Result<Uuid, PayerError> {
    if rulePayer != "" && lib.Parse(rulePayer).None? then Failure(NotAUuid(rulePayer))
    else if rulePayer != "" && lib.Parse(rulePayer).value != NIL then Success(lib.Parse(rulePayer).value)
    else if requestPayer != NIL then Success(requestPayer)
    else Failure(Required)
  }

  /** The request's payer is the one its text names; a text that is no UUID is refused as such, one that names nobody
      as missing. */
  lemma RequestPayerExactly(lib: Library, text: string)
    ensures
      var r := ResolveRequestPayer(lib, text);
      && (text == "" ==> r == Failure(Required))
      && (text != "" && lib.Parse(text) == None ==> r == Failure(NotAUuid(text)))
      && (text != "" && lib.Parse(text) == Some(NIL) ==> r == Failure(Required))
      && (forall u :: text != "" && lib.Parse(text) == Some(u) && u != NIL ==> r == Success(u))
  {
  }

  /** A rule's payer is the one its text names whatever the default, else the default; it cannot be resolved exactly
      when the text is no UUID, or names nobody and there is no default. */
  lemma RulePayerExactly(lib: Library, text: string, d: Uuid)
    ensures
      var r := ResolveRulePayer(lib, text, d);
      && (text != "" && lib.Parse(text) == None ==> r == Failure(NotAUuid(text)))
      && (forall u :: text != "" && lib.Parse(text) == Some(u) && u != NIL ==> r == Success(u))
      && (text == "" || lib.Parse(text) == Some(NIL) ==> r == if d != NIL then Success(d) else Failure(Required))
  {
  }

  /** As for the text a rule is stamped with. */
  lemma StampExactly(lib: Library, text: string, d: Uuid)
    ensures Resolves(lib, text, d) <==>
      if text == "" || lib.Parse(text) == Some(NIL) then d != NIL else lib.Parse(text).Some?
    ensures Resolves(lib, text, d) ==>
      Stamp(lib, text, d) == Print(if text == "" || lib.Parse(text) == Some(NIL) then d else lib.Parse(text).value)
  {
    RulePayerExactly(lib, text, d);
  }

  lemma ResolvedIsNamed(lib: Library, text: string, d: Uuid)
    requires ResolveRulePayer(lib, text, d).Success?
    ensures ResolveRulePayer(lib, text, d).value != NIL
  {
  }

  /** A stamped text resolves to what it was stamped with, whatever the default. */
  lemma StampResolves(lib: Library, u: Uuid, d: Uuid)
    requires u != NIL
    ensures ResolveRulePayer(lib, Print(u), d) == Success(u) && ResolveRequestPayer(lib, Print(u)) == Success(u)
  {
    ParseOfPrint(u);
  }

  /** Stamping again, even with another default, changes nothing. */
  lemma StampIsIdempotent(lib: Library, text: string, d: Uuid, d': Uuid)
    requires ResolveRulePayer(lib, text, d).Success?
    ensures
      var stamped := Print(ResolveRulePayer(lib, text, d).value);
      && ResolveRulePayer(lib, stamped, d').Success?
      && Print(ResolveRulePayer(lib, stamped, d').value) == stamped
  {
    StampResolves(lib, ResolveRulePayer(lib, text, d).value, d');
  }

  /** A match rule or a report rule, as far as billing goes. */
  class Rule {
    var payer: string

    constructor (payer: string)
      ensures this.payer == payer
    {
      this.payer := payer;
    }
  }

  datatype RuleError = NilRule(index: nat) | BadPayer(index: nat, error: PayerError)

  /** The payers the rules name, in order; an absent rule names none. */
  function Payers(rules: seq<Rule?>): seq<string>
    reads set r | r in rules
  {
    seq(|rules|, i requires 0 <= i < |rules| reads set r | r in rules =>
      if rules[i] == null then "" else rules[i].payer)
  }

  predicate Resolves(lib: Library, text: string, d: Uuid) { ResolveRulePayer(lib, text, d).Success? }

  /** The text a rule is stamped with. */
  function Stamp(lib: Library, text: string, d: Uuid): string {
    match ResolveRulePayer(lib, text, d)
    case Success(u) => Print(u)
    case Failure(_) => text
  }

  lemma StampedResolves(lib: Library, text: string, d: Uuid)
    requires Resolves(lib, text, d)
    ensures Resolves(lib, Stamp(lib, text, d), d) && Stamp(lib, Stamp(lib, text, d), d) == Stamp(lib, text, d)
  {
    ResolvedIsNamed(lib, text, d);
    StampResolves(lib, ResolveRulePayer(lib, text, d).value, d);
  }

  /** The first k rules are there, resolved and stamped; the others hold what they held. */
  ghost predicate StampedUpTo(lib: Library, rules: seq<Rule?>, was: seq<string>, now: seq<string>, d: Uuid, k: nat)
    requires |was| == |now| == |rules| && k <= |rules|
  {
    && (forall j :: 0 <= j < k ==> rules[j] != null && Resolves(lib, was[j], d) && now[j] == Stamp(lib, was[j], d))
    && (forall j :: k <= j < |rules| && rules[j] !in rules[..k] ==> now[j] == was[j])
  }

  /** What stamping rules with the default d comes to: all are stamped, or those before the first that cannot be. */
  ghost predicate Applied(lib: Library, rules: seq<Rule?>, was: seq<string>, now: seq<string>, d: Uuid,
                          error: Option<RuleError>)
    requires |was| == |now| == |rules|
  {
    match error
    case None => StampedUpTo(lib, rules, was, now, d, |rules|)
    case Some(NilRule(k)) => k < |rules| && StampedUpTo(lib, rules, was, now, d, k) && rules[k] == null
    case Some(BadPayer(k, e)) =>
      && k < |rules| && StampedUpTo(lib, rules, was, now, d, k)
      && rules[k] != null && ResolveRulePayer(lib, was[k], d) == Failure(e)
  }

  /** Whether a rule can be stamped. */
  predicate Stampable(lib: Library, rule: Rule?, text: string, d: Uuid) {
    && rule != null
    && if text == "" || lib.Parse(text) == Some(NIL) then d != NIL else lib.Parse(text).Some?
  }

  /** In terms of the texts alone: stamping succeeds exactly when every rule is there and names somebody, or nobody when
      there is a default; and then each holds the payer it named, or the default. A failure is of a rule that cannot
      be stamped, those before it have been, and those after it that are not among them hold what they held. */
  lemma AppliedMeans(lib: Library, rules: seq<Rule?>, was: seq<string>, now: seq<string>, d: Uuid,
                     error: Option<RuleError>)
    requires |was| == |now| == |rules| && Applied(lib, rules, was, now, d, error)
    ensures error.None? <==> forall i :: 0 <= i < |rules| ==> Stampable(lib, rules[i], was[i], d)
    ensures
      var k := match error case None => |rules| case Some(e) => e.index;
      && (error.Some? ==> k < |rules| && !Stampable(lib, rules[k], was[k], d))
      && (forall i :: 0 <= i < k ==>
            now[i] == Print(if was[i] == "" || lib.Parse(was[i]) == Some(NIL) then d
                            else match lib.Parse(was[i]) case Some(u) => u case None => d))
      && (forall i :: k <= i < |rules| && rules[i] !in rules[..k] ==> now[i] == was[i])
  {
    var k := match error case None => |rules| case Some(e) => e.index;
    forall i | 0 <= i < |rules|
      ensures Stampable(lib, rules[i], was[i], d) <==> rules[i] != null && Resolves(lib, was[i], d)
      ensures
        var u := if was[i] == "" || lib.Parse(was[i]) == Some(NIL) then d
                 else match lib.Parse(was[i]) case Some(u) => u case None => d;
        i < k ==> Stamp(lib, was[i], d) == Print(u)
    {
      StampExactly(lib, was[i], d);
    }
  }

  /** applyMatchRulePayers and applyReportRulePayers. The same rule object may stand in several places. */
  method ApplyRulePayers(lib: Library, rules: seq<Rule?>, d: Uuid) returns (error: Option<RuleError>)
    modifies set r | r in rules
    ensures error.None? <==>
      forall i :: 0 <= i < |rules| ==> rules[i] != null && Resolves(lib, old(Payers(rules))[i], d)
    ensures Applied(lib, rules, old(Payers(rules)), Payers(rules), d, error)
    ensures error.None? ==>
      var was, now := old(Payers(rules)), Payers(rules);
      forall i :: 0 <= i < |rules| ==>
        && rules[i] != null
        && (was[i] == "" || lib.Parse(was[i]) == Some(NIL) ==> d != NIL && now[i] == Print(d))
        && (was[i] != "" && lib.Parse(was[i]) != Some(NIL) ==>
              lib.Parse(was[i]).Some? && now[i] == Print(lib.Parse(was[i]).value))
    ensures error.None? <==> forall i :: 0 <= i < |rules| ==> Stampable(lib, rules[i], old(Payers(rules))[i], d)
  {
    ghost var was := Payers(rules);
    for i := 0 to |rules|
      invariant StampedUpTo(lib, rules, was, Payers(rules), d, i)
    {
      var rule := rules[i];
      if rule == null {
        AppliedMeans(lib, rules, was, Payers(rules), d, Some(NilRule(i)));
        return Some(NilRule(i));
      }
      Revisited(lib, rules, was, d, i);
      var resolved := ResolveRulePayer(lib, rule.payer, d);
      if resolved.Failure? {
        AppliedMeans(lib, rules, was, Payers(rules), d, Some(BadPayer(i, resolved.error)));
        return Some(BadPayer(i, resolved.error));
      }
      ghost var now := Payers(rules);
      rule.payer := Print(resolved.value);
      StampNext(lib, rules, was, now, Payers(rules), d, i);
    }
    AppliedMeans(lib, rules, was, Payers(rules), d, None);
    return None;
  }

  lemma StampNext(lib: Library, rules: seq<Rule?>, was: seq<string>, now: seq<string>, next: seq<string>, d: Uuid,
                  i: nat)
    requires |was| == |now| == |next| == |rules| && i < |rules| && rules[i] != null
    requires forall j, k :: 0 <= j < k < |rules| && rules[j] == rules[k] ==> was[j] == was[k]
    requires StampedUpTo(lib, rules, was, now, d, i) && Resolves(lib, was[i], d)
    requires forall j :: 0 <= j < |rules| ==> next[j] == if rules[j] == rules[i] then Stamp(lib, was[i], d) else now[j]
    ensures StampedUpTo(lib, rules, was, next, d, i + 1)
  {
    forall j | 0 <= j < i + 1
      ensures rules[j] != null && Resolves(lib, was[j], d) && next[j] == Stamp(lib, was[j], d)
    {
      if j < i && rules[j] == rules[i] {
        assert was[j] == was[i];
      }
    }
    forall j | i + 1 <= j < |rules| && rules[j] !in rules[..i + 1] ensures next[j] == was[j] {
      NotAmongMore(rules, i, rules[j]);
    }
  }

  lemma NotAmongMore(rules: seq<Rule?>, i: nat, rule: Rule?)
    requires i < |rules| && rule !in rules[..i + 1]
    ensures rule !in rules[..i] && rule != rules[i]
  {
    assert rules[..i + 1] == rules[..i] + [rules[i]];
  }

  lemma Revisited(lib: Library, rules: seq<Rule?>, was: seq<string>, d: Uuid, i: nat)
    requires |was| == |rules| && i < |rules| && rules[i] != null
    requires forall j, k :: 0 <= j < k < |rules| && rules[j] == rules[k] ==> was[j] == was[k]
    requires StampedUpTo(lib, rules, was, Payers(rules), d, i)
    ensures ResolveRulePayer(lib, rules[i].payer, d).Success? <==> Resolves(lib, was[i], d)
    ensures Stamp(lib, rules[i].payer, d) == Stamp(lib, was[i], d)
    ensures ResolveRulePayer(lib, rules[i].payer, d).Failure? ==> rules[i] !in rules[..i] && rules[i].payer == was[i]
  {
    assert Payers(rules)[i] == rules[i].payer;
    if rules[i] in rules[..i] {
      var j :| 0 <= j < i && rules[..i][j] == rules[i];
      assert Payers(rules)[j] == rules[i].payer;
      StampedResolves(lib, was[j], d);
    }
  }

  /** Stamping stamped rules again, under any default, changes none of them. */
  lemma StampingTwiceIsOnce(lib: Library, rules: seq<Rule?>, was: seq<string>, now: seq<string>, again: seq<string>,
                            d: Uuid, d': Uuid)
    requires |was| == |now| == |again| == |rules|
    requires StampedUpTo(lib, rules, was, now, d, |rules|) && StampedUpTo(lib, rules, now, again, d', |rules|)
    ensures again == now
  {
    forall i | 0 <= i < |rules| ensures again[i] == now[i] {
      StampIsIdempotent(lib, was[i], d, d');
    }
  }

  datatype ReportError = NoTrackingId | BadRequestPayer(payerError: PayerError) | BadRule(ruleError: RuleError)

  class ReportRequest {
    const trackingId: Option<string>
    var payer: string
    const rules: seq<Rule?>

    constructor (trackingId: Option<string>, payer: string, rules: seq<Rule?>)
      ensures this.trackingId == trackingId && this.payer == payer && this.rules == rules
    {
      this.trackingId, this.payer, this.rules := trackingId, payer, rules;
    }
  }

  /** What Report leaves of its request before it sends: the payer stamped, and the rules under it as far as they could
      be, or nothing changed at all. */
  ghost predicate Prepared(lib: Library, req: ReportRequest, payerWas: string, payerNow: string, was: seq<string>,
                           now: seq<string>, error: Option<ReportError>)
    requires |was| == |now| == |req.rules|
  {
    var payer := ResolveRequestPayer(lib, payerWas);
    match error
    case Some(NoTrackingId) => req.trackingId.None? && payerNow == payerWas && now == was
    case Some(BadRequestPayer(e)) =>
      req.trackingId.Some? && payer == Failure(e) && payerNow == payerWas && now == was
    case Some(BadRule(e)) =>
      && req.trackingId.Some? && payer.Success? && payerNow == Print(payer.value)
      && Applied(lib, req.rules, was, now, payer.value, Some(e))
    case None =>
      && req.trackingId.Some? && payer.Success? && payerNow == Print(payer.value)
      && Applied(lib, req.rules, was, now, payer.value, None)
  }

  /** What Report does before it sends: the request's payer is stamped first, then the rules inherit it. */
  method PrepareReport(lib: Library, req: ReportRequest) returns (error: Option<ReportError>)
    modifies req`payer, set r | r in req.rules
    ensures Prepared(lib, req, old(req.payer), req.payer, old(Payers(req.rules)), Payers(req.rules), error)
    ensures error == Some(NoTrackingId) <==> req.trackingId.None?
    ensures error.Some? && error.value.BadRequestPayer? <==>
      req.trackingId.Some? && (old(req.payer) == "" || lib.Parse(old(req.payer)) in {None, Some(NIL)})
    ensures error.None? || error.value.BadRule? ==>
      lib.Parse(old(req.payer)).Some? && req.payer == Print(lib.Parse(old(req.payer)).value)
    ensures error.None? ==>
      forall i :: 0 <= i < |req.rules| && old(Payers(req.rules))[i] == "" ==> Payers(req.rules)[i] == req.payer
    ensures error.Some? && error.value.BadRule? ==>
      var k := error.value.ruleError.index;
      && k < |req.rules|
      && !Stampable(lib, req.rules[k], old(Payers(req.rules))[k], lib.Parse(old(req.payer)).value)
  {
    RequestPayerExactly(lib, req.payer);
    if req.trackingId.None? {
      return Some(NoTrackingId);
    }
    var payer := ResolveRequestPayer(lib, req.payer);
    if payer.Failure? {
      return Some(BadRequestPayer(payer.error));
    }
    req.payer := Print(payer.value);
    assert Payers(req.rules) == old(Payers(req.rules));
    var failed := ApplyRulePayers(lib, req.rules, payer.value);
    AppliedMeans(lib, req.rules, old(Payers(req.rules)), Payers(req.rules), payer.value, failed);
    if failed.Some? {
      return Some(BadRule(failed.value));
    }
    return None;
  }

  lemma AppliedExactly(lib: Library, rules: seq<Rule?>, was: seq<string>, now: seq<string>, d: Uuid,
                       error: Option<RuleError>)
    requires |was| == |now| == |rules| && Applied(lib, rules, was, now, d, error)
    ensures error.None? <==> forall i :: 0 <= i < |rules| ==> rules[i] != null && Resolves(lib, was[i], d)
  {
  }

  /** The preparation succeeds exactly when there is a tracking id and a payer, and every rule resolves under it. */
  lemma PreparedExactly(lib: Library, req: ReportRequest, payerWas: string, payerNow: string, was: seq<string>,
                        now: seq<string>, error: Option<ReportError>)
    requires |was| == |now| == |req.rules| && Prepared(lib, req, payerWas, payerNow, was, now, error)
    ensures
      var payer := ResolveRequestPayer(lib, payerWas);
      error.None? <==>
        && req.trackingId.Some? && payer.Success?
        && forall i :: 0 <= i < |req.rules| ==> req.rules[i] != null && Resolves(lib, was[i], payer.value)
  {
    match error
    case None => AppliedExactly(lib, req.rules, was, now, ResolveRequestPayer(lib, payerWas).value, None);
    case Some(BadRule(e)) =>
      AppliedExactly(lib, req.rules, was, now, ResolveRequestPayer(lib, payerWas).value, Some(e));
    case _ =>
  }

  // ---- The server's side ----

  datatype Refusal = Malformed | Missing

  /** Whether the server can tell whom to bill. */
  function ServerPayer(lib: Library, payer: string): Result<Uuid, Refusal> {
    if payer != "" && lib.Parse(payer).None? then Failure(Malformed)
    else if payer != "" && lib.Parse(payer).value != NIL then Success(lib.Parse(payer).value)
    else Failure(Missing)
  }

  predicate Accepted(lib: Library, payer: string) { ServerPayer(lib, payer).Success? }

  /** The first of the payers that the server refuses, or their number. */
  function FirstRefused(lib: Library, payers: seq<string>): (k: nat)
    ensures k <= |payers|
    ensures forall i :: 0 <= i < k ==> Accepted(lib, payers[i])
    ensures k < |payers| ==> !Accepted(lib, payers[k])
  {
    if payers == [] || !Accepted(lib, payers[0]) then 0
    else 1 + FirstRefused(lib, payers[1..])
  }

  class Server {
    var unauthorized: nat

    constructor ()
      ensures unauthorized == 0
    {
      unauthorized := 0;
    }

    /** Only a missing payer is counted; a malformed one is refused without a count. */
    method RequestPayer(lib: Library, payer: string) returns (r: Result<Uuid, Refusal>)
      modifies this
      ensures r == ServerPayer(lib, payer)
      ensures payer == "" || lib.Parse(payer) == Some(NIL) ==> r == Failure(Missing)
      ensures payer != "" && lib.Parse(payer) == None ==> r == Failure(Malformed)
      ensures forall u :: payer != "" && lib.Parse(payer) == Some(u) && u != NIL ==> r == Success(u)
      ensures unauthorized == old(unauthorized) + (if r == Failure(Missing) then 1 else 0)
    {
      if payer != "" {
        var parsed := lib.Parse(payer);
        if parsed.None? {
          return Failure(Malformed);
        }
        if parsed.value != NIL {
          return Success(parsed.value);
        }
      }
      unauthorized := unauthorized + 1;
      return Failure(Missing);
    }

    /** The payer loop of handleTarget and of handleReport: the first refusal ends it. */
    method CheckPayers(lib: Library, payers: seq<string>) returns (refused: Option<nat>)
      modifies this
      ensures var k := FirstRefused(lib, payers);
              && refused == (if k < |payers| then Some(k) else None)
              && unauthorized == old(unauthorized)
                   + (if k < |payers| && ServerPayer(lib, payers[k]) == Failure(Missing) then 1 else 0)
    {
      for i := 0 to |payers|
        invariant unauthorized == old(unauthorized) && FirstRefused(lib, payers) == i + FirstRefused(lib, payers[i..])
      {
        var r := RequestPayer(lib, payers[i]);
        if r.Failure? {
          return Some(i);
        }
      }
      return None;
    }

    /** handleReport checks the request's payer, then every rule's. */
    method CheckReport(lib: Library, payer: string, payers: seq<string>) returns (accepted: bool)
      modifies this
      ensures accepted <==> Accepted(lib, payer) && FirstRefused(lib, payers) == |payers|
      ensures var k := FirstRefused(lib, [payer] + payers);
              unauthorized == old(unauthorized)
                + (if k <= |payers| && ServerPayer(lib, ([payer] + payers)[k]) == Failure(Missing) then 1 else 0)
    {
      assert ([payer] + payers)[1..] == payers;
      var r := RequestPayer(lib, payer);
      if r.Failure? {
        return false;
      }
      var refused := CheckPayers(lib, payers);
      return refused.None?;
    }
  }

  /** Client and server agree on a Target: a payer the client can resolve without a default is one the server accepts,
      and they resolve it alike. */
  lemma TargetRulesAgree(lib: Library, text: string)
    ensures Resolves(lib, text, NIL) <==> Accepted(lib, text)
    ensures Accepted(lib, text) ==> ServerPayer(lib, Stamp(lib, text, NIL)) == ServerPayer(lib, text)
  {
    if Accepted(lib, text) {
      ParseOfPrint(lib.Parse(text).value);
    }
  }

  lemma PrintedIsAccepted(lib: Library, u: Uuid)
    requires u != NIL
    ensures Accepted(lib, Print(u))
  {
    ParseOfPrint(u);
  }

  /** Every payer stamped by the client passes the server's check. */
  lemma StampedIsAccepted(lib: Library, rules: seq<Rule?>, was: seq<string>, now: seq<string>, d: Uuid)
    requires |was| == |now| == |rules| && StampedUpTo(lib, rules, was, now, d, |rules|)
    ensures FirstRefused(lib, now) == |now|
  {
    forall i | 0 <= i < |now| ensures Accepted(lib, now[i]) {
      ResolvedIsNamed(lib, was[i], d);
      PrintedIsAccepted(lib, ResolveRulePayer(lib, was[i], d).value);
    }
  }

  /** A Target whose payers were stamped is accepted, and no refusal is counted. */
  method TargetReachesServer(lib: Library, rules: seq<Rule?>, server: Server)
    returns (error: Option<RuleError>, refused: Option<nat>)
    modifies server, set r | r in rules
    ensures error.None? <==> forall i :: 0 <= i < |rules| ==> rules[i] != null && Accepted(lib, old(Payers(rules))[i])
    ensures refused.None? && server.unauthorized == old(server.unauthorized)
  {
    refused := None;
    forall text: string ensures Resolves(lib, text, NIL) <==> Accepted(lib, text) { TargetRulesAgree(lib, text); }
    error := ApplyRulePayers(lib, rules, NIL);
    if error.None? {
      StampedIsAccepted(lib, rules, old(Payers(rules)), Payers(rules), NIL);
      refused := server.CheckPayers(lib, Payers(rules));
    }
  }

  /** Once a Report is prepared, its payer and those of its rules are accepted. */
  lemma PreparedIsAccepted(lib: Library, req: ReportRequest, payerWas: string, payerNow: string, was: seq<string>,
                           now: seq<string>)
    requires |was| == |now| == |req.rules| && Prepared(lib, req, payerWas, payerNow, was, now, None)
    ensures Accepted(lib, payerNow) && FirstRefused(lib, now) == |now|
    ensures FirstRefused(lib, [payerNow] + now) == |now| + 1
  {
    var payer := ResolveRequestPayer(lib, payerWas).value;
    PrintedIsAccepted(lib, payer);
    StampedIsAccepted(lib, req.rules, was, now, payer);
    assert ([payerNow] + now)[1..] == now;
  }

  /** A Report is accepted exactly when it could be stamped, and no refusal is counted. */
  method ReportReachesServer(lib: Library, req: ReportRequest, server: Server)
    returns (error: Option<ReportError>, accepted: bool)
    modifies server, req`payer, set r | r in req.rules
    ensures accepted <==> error.None?
    ensures server.unauthorized == old(server.unauthorized)
  {
    accepted := false;
    error := PrepareReport(lib, req);
    if error.None? {
      PreparedIsAccepted(lib, req, old(req.payer), req.payer, old(Payers(req.rules)), Payers(req.rules));
      accepted := server.CheckReport(lib, req.payer, Payers(req.rules));
    }
  }
}
