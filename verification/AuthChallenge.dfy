/**
 Signing in with a wallet: the three handlers of the custom-authentication flow and the runs the identity
 service makes of them. Every invocation sees the table as it is at that moment.
 */
module AuthChallenge {
  import opened Basics
  import opened Hex
  import opened Signature
  import Wallets

  const CUSTOM_CHALLENGE := "CUSTOM_CHALLENGE"
  const SIGN_IN_MESSAGE := "Sign in to Knowtfolio."

  datatype ChallengeResult = ChallengeResult(name: string, result: bool)

  // ---------- what the handlers decide ----------

  datatype Decision = IssueTokens | FailAuthentication | PoseChallenge | LookupFailed

  predicate EndsWithCustom(session: seq<ChallengeResult>) {
    session != [] && session[|session| - 1].name == CUSTOM_CHALLENGE
  }

  /** `define`: after a custom challenge its result decides, otherwise whether the user has a wallet. */
  function Decide(session: seq<ChallengeResult>, lookup: Result<Address>): Decision {
    if EndsWithCustom(session) then
      if session[|session| - 1].result then IssueTokens else FailAuthentication
    else match lookup
      case Ok(_) => PoseChallenge
      case Err(ItemNotFound) => FailAuthentication
      case Err(_) => LookupFailed
  }

  function Private(nonce: Hash): map<string, string> {
    map["message" := SIGN_IN_MESSAGE, "nonce" := HashHex(nonce)]
  }

  /** Go's map access: a missing key reads as the empty string. */
  function Parameter(m: map<string, string>, key: string): string {
    if key in m then m[key] else ""
  }

  /** The answer is a signature of the account over the text rebuilt from the stored parameters. */
  ghost predicate AnswerIsRight(o: Oracle, account: Address, answer: string, parameters: map<string, string>) {
    SignedBy(o, Checksum(o.keccak, account), answer, Parameter(parameters, "message"),
             Some(HexToHash(Parameter(parameters, "nonce"))))
  }

  /** A signature that decodes but is too short stops the handler with a panic. */
  predicate Panics(answer: string) {
    DecodeSignature(answer).Some? && |DecodeSignature(answer).value| <= RECOVERY_ID_OFFSET
  }

  /** What the table answers for the user, if it can be reached. */
  function LookUp(items: Wallets.Items, reachable: bool, user: string): Result<Address> {
    if reachable then Wallets.GetAddressByID(items, user) else Err(RemoteFailure)
  }

  // ---------- the handlers ----------

  class DefineEvent {
    const userName: string
    const session: seq<ChallengeResult>
    var issueTokens: bool
    var failAuthentication: bool
    var challengeName: string

    constructor (userName: string, session: seq<ChallengeResult>)
      ensures this.userName == userName && this.session == session
      ensures !issueTokens && !failAuthentication && challengeName == ""
    {
      this.userName, this.session := userName, session;
      issueTokens, failAuthentication, challengeName := false, false, "";
    }

    method Handle(table: Wallets.DynamoTable, reachable: bool) returns (r: Result<()>)
      requires !issueTokens && !failAuthentication && challengeName == ""
      modifies this
      ensures var d := Decide(session, LookUp(table.items, reachable, userName));
        && (r.Err? <==> d == LookupFailed)
        && (issueTokens <==> d == IssueTokens) && (failAuthentication <==> d == FailAuthentication)
        && challengeName == (if d == PoseChallenge then CUSTOM_CHALLENGE else "")
    {
      var sessionLen := |session|;
      if sessionLen > 0 && session[sessionLen - 1].name == CUSTOM_CHALLENGE {
        if session[sessionLen - 1].result {
          issueTokens := true;
        } else {
          failAuthentication := true;
        }
      } else {
        var address := LookUp(table.items, reachable, userName);
        match address {
          case Ok(_) => challengeName := CUSTOM_CHALLENGE;
          case Err(e) =>
            if e == ItemNotFound {
              failAuthentication := true;
            } else {
              return Err(e);
            }
        }
      }
      return Ok(());
    }
  }

  class CreateEvent {
    var publicParameters: map<string, string>
    var privateParameters: map<string, string>

    constructor ()
      ensures publicParameters == map[] && privateParameters == map[]
    {
      publicParameters, privateParameters := map[], map[];
    }

    /** `nonce` is absent when the system's random source fails. */
    method Handle(nonce: Option<Hash>) returns (r: Result<()>)
      modifies this
      ensures r.Ok? <==> nonce.Some?
      ensures r.Ok? ==> privateParameters == map["message" := SIGN_IN_MESSAGE, "nonce" := HashHex(nonce.value)]
      ensures r.Ok? ==>
        publicParameters == map["sign_message" := SIGN_IN_MESSAGE + "\n(nonce: " + HashHex(nonce.value) + ")"]
      ensures r.Err? ==> unchanged(this)
    {
      if nonce.None? {
        return Err(RemoteFailure);
      }
      var message := SIGN_IN_MESSAGE;
      var signData := SignData(message, nonce.value);
      publicParameters := map["sign_message" := signData];
      privateParameters := map["message" := message, "nonce" := HashHex(nonce.value)];
      return Ok(());
    }
  }

  class VerifyEvent {
    const userName: string
    const answer: string
    const privateParameters: map<string, string>
    var answerCorrect: bool

    constructor (userName: string, answer: string, privateParameters: map<string, string>)
      ensures this.userName == userName && this.answer == answer && this.privateParameters == privateParameters
      ensures !answerCorrect
    {
      this.userName, this.answer, this.privateParameters, answerCorrect := userName, answer, privateParameters, false;
    }

    method Handle(o: Oracle, table: Wallets.DynamoTable, reachable: bool) returns (r: Result<()>)
      requires !answerCorrect
      modifies this
      ensures var lookup := LookUp(table.items, reachable, userName);
        && (r.Ok? <==> lookup.Ok? && !Panics(answer))
        && (answerCorrect <==> r.Ok? && AnswerIsRight(o, lookup.value, answer, privateParameters))
    {
      hide SignedBy, HexToAddress, HexToHash, Checksum;
      var address :- LookUp(table.items, reachable, userName);
      var message := Parameter(privateParameters, "message");
      var nonce := HexToHash(Parameter(privateParameters, "nonce"));
      var verdict := VerifySignature(o, Checksum(o.keccak, address), answer, message, Some(nonce));
      if verdict == Err(RuntimePanic) {
        return Err(RuntimePanic);
      }
      if verdict.Ok? {
        answerCorrect := true;
      }
      return Ok(());
    }
  }

  // ---------- runs ----------

  datatype Stage =
    | Defining(session: seq<ChallengeResult>)
    | Creating(session: seq<ChallengeResult>)
    | Answering(session: seq<ChallengeResult>, shown: string, kept: map<string, string>)
    | SignedIn
    | Rejected
    | Crashed

  /** What one invocation meets: the table, its availability, the random nonce and the user's answer. */
  datatype Invocation = Invocation(items: Wallets.Items, reachable: bool, nonce: Option<Hash>, answer: string)

  ghost function Advance(o: Oracle, user: string, stage: Stage, i: Invocation): Stage {
    match stage
    case Defining(session) =>
      (match Decide(session, LookUp(i.items, i.reachable, user))
       case IssueTokens => SignedIn
       case FailAuthentication => Rejected
       case PoseChallenge => Creating(session)
       case LookupFailed => Crashed)
    case Creating(session) =>
      (match i.nonce
       case Some(n) => Answering(session, SignData(SIGN_IN_MESSAGE, n), Private(n))
       case None => Crashed)
    case Answering(session, _, kept) =>
      var lookup := LookUp(i.items, i.reachable, user);
      if lookup.Err? || Panics(i.answer) then Crashed
      else Defining(session + [ChallengeResult(CUSTOM_CHALLENGE, AnswerIsRight(o, lookup.value, i.answer, kept))])
    case _ => stage
  }

  ghost function AuthRun(o: Oracle, user: string, stage: Stage, inputs: seq<Invocation>): Stage
    decreases |inputs|
  {
    if inputs == [] then stage else AuthRun(o, user, Advance(o, user, stage, inputs[0]), inputs[1..])
  }

  predicate Over(stage: Stage) {
    stage.SignedIn? || stage.Rejected? || stage.Crashed?
  }

  function Rank(stage: Stage): nat {
    match stage
    case Defining(session) => if EndsWithCustom(session) then 1 else 4
    case Creating(_) => 3
    case Answering(_, _, _) => 2
    case _ => 0
  }

  /** Every invocation brings the run closer to its end. */
  lemma RankDecreases(o: Oracle, user: string, stage: Stage, i: Invocation)
    ensures Over(stage) <==> Rank(stage) == 0
    ensures !Over(stage) ==> Rank(Advance(o, user, stage, i)) < Rank(stage)
    ensures Over(stage) ==> Advance(o, user, stage, i) == stage
  {
    hide SignedBy, HexToAddress, HexToHash, HashHex;
  }

  /** Any run is over after four invocations. */
  lemma {:induction false} RunsEnd(o: Oracle, user: string, stage: Stage, inputs: seq<Invocation>)
    requires |inputs| >= Rank(stage)
    ensures Over(AuthRun(o, user, stage, inputs))
    ensures Over(stage) ==> AuthRun(o, user, stage, inputs) == stage
    decreases |inputs|
  {
    hide Advance, Rank, Over;
    RankDecreases(o, user, stage, if inputs == [] then Invocation(map[], false, None, "") else inputs[0]);
    if inputs != [] {
      RunsEnd(o, user, Advance(o, user, stage, inputs[0]), inputs[1..]);
    }
  }

  lemma {:induction false} RankFalls(o: Oracle, user: string, stage: Stage, inputs: seq<Invocation>)
    requires inputs != []
    ensures Rank(AuthRun(o, user, stage, inputs)) < Rank(stage) || Over(AuthRun(o, user, stage, inputs))
    decreases |inputs|
  {
    hide Advance, Rank, Over;
    var next := Advance(o, user, stage, inputs[0]);
    RankDecreases(o, user, stage, inputs[0]);
    if |inputs| > 1 {
      RankFalls(o, user, next, inputs[1..]);
      RankDecreases(o, user, next, inputs[1]);
    }
  }

  lemma {:induction false} RunsContinue(o: Oracle, user: string, stage: Stage, first: seq<Invocation>,
                                        second: seq<Invocation>)
    ensures AuthRun(o, user, stage, first + second) == AuthRun(o, user, AuthRun(o, user, stage, first), second)
    decreases |first|
  {
    hide Advance;
    if first == [] {
      assert first + second == second;
    } else {
      assert (first + second)[1..] == first[1..] + second;
      RunsContinue(o, user, Advance(o, user, stage, first[0]), first[1..], second);
    }
  }

  /** A run creates at most one challenge: it is about to create one at no two moments. */
  lemma OneChallengePerRun(o: Oracle, user: string, stage: Stage, inputs: seq<Invocation>, i: nat, j: nat)
    requires i < j <= |inputs|
    ensures !(AuthRun(o, user, stage, inputs[..i]).Creating? && AuthRun(o, user, stage, inputs[..j]).Creating?)
  {
    var early := AuthRun(o, user, stage, inputs[..i]);
    assert inputs[..i] + inputs[i..j] == inputs[..j];
    RunsContinue(o, user, stage, inputs[..i], inputs[i..j]);
    hide AuthRun;
    RankFalls(o, user, early, inputs[i..j]);
  }

  /** The text shown to the user is the text the answer is checked against. */
  lemma ShownTextIsChecked(o: Oracle, user: string, session: seq<ChallengeResult>, i: Invocation)
    requires i.nonce.Some?
    ensures var stage := Advance(o, user, Creating(session), i);
      stage.shown == SignData(Parameter(stage.kept, "message"), HexToHash(Parameter(stage.kept, "nonce")))
      && HexToHash(Parameter(stage.kept, "nonce")) == i.nonce.value
  {
    NonceRoundTrip(i.nonce.value);
  }

  /** The user had a wallet, a nonce was made, and the wallet's account signed that nonce. */
  ghost predicate Proved(o: Oracle, user: string, inputs: seq<Invocation>)
    requires |inputs| >= 4
  {
    && LookUp(inputs[0].items, inputs[0].reachable, user).Ok?
    && inputs[1].nonce.Some?
    && LookUp(inputs[2].items, inputs[2].reachable, user).Ok?
    && SignedBy(o, Checksum(o.keccak, LookUp(inputs[2].items, inputs[2].reachable, user).value), inputs[2].answer,
                SIGN_IN_MESSAGE, Some(inputs[1].nonce.value))
  }

  /** The user was without a wallet at the start, or answered with a well-formed signature that proves nothing. */
  ghost predicate Refused(o: Oracle, user: string, inputs: seq<Invocation>)
    requires |inputs| >= 4
  {
    && inputs[0].reachable
    && (Wallets.Registered(inputs[0].items, user) ==>
          && inputs[1].nonce.Some?
          && inputs[2].reachable && Wallets.Registered(inputs[2].items, user) && !Panics(inputs[2].answer)
          && !Proved(o, user, inputs))
  }

  /**
   A run ends in one of three ways: a proof signs in; a missing wallet or a wrong answer is refused; a table
   that cannot be reached, a failing random source, a wallet that has gone or a panic is an error.
   */
  lemma HowRunsEnd(o: Oracle, user: string, session: seq<ChallengeResult>, inputs: seq<Invocation>)
    requires !EndsWithCustom(session) && |inputs| >= 4
    ensures AuthRun(o, user, Defining(session), inputs) ==
      if Proved(o, user, inputs) then SignedIn else if Refused(o, user, inputs) then Rejected else Crashed
  {
    hide Advance, AuthRun, Proved, Refused, Rank, Over;
    var s1 := Advance(o, user, Defining(session), inputs[0]);
    var s2 := Advance(o, user, s1, inputs[1]);
    var s3 := Advance(o, user, s2, inputs[2]);
    FourRounds(o, user, Defining(session), inputs);
    RoundsOutcome(o, user, session, inputs);
    RunsEnd(o, user, Advance(o, user, s3, inputs[3]), inputs[4..]);
  }

  /**
   A run signs the user in exactly if the user's registered account signed the nonce created in that very run,
   whatever happens to the table in between.
   */
  lemma SignedInIffProved(o: Oracle, user: string, session: seq<ChallengeResult>, inputs: seq<Invocation>)
    requires !EndsWithCustom(session) && |inputs| >= 4
    ensures AuthRun(o, user, Defining(session), inputs).SignedIn? <==> Proved(o, user, inputs)
  {
    HowRunsEnd(o, user, session, inputs);
    hide AuthRun, Proved, Refused;
  }

  lemma RoundsOutcome(o: Oracle, user: string, session: seq<ChallengeResult>, inputs: seq<Invocation>)
    requires !EndsWithCustom(session) && |inputs| >= 4
    ensures var s1 := Advance(o, user, Defining(session), inputs[0]);
      var s2 := Advance(o, user, s1, inputs[1]);
      var s3 := Advance(o, user, s2, inputs[2]);
      var s4 := Advance(o, user, s3, inputs[3]);
      && Over(s4) && Rank(s4) == 0
      && s4 == if Proved(o, user, inputs) then SignedIn else if Refused(o, user, inputs) then Rejected else Crashed
  {
    var s1 := Advance(o, user, Defining(session), inputs[0]);
    var s2 := Advance(o, user, s1, inputs[1]);
    var s3 := Advance(o, user, s2, inputs[2]);
    SignatureDecodes(o, user, inputs);
    LookUpFinds(inputs[0], user);
    LookUpFinds(inputs[2], user);
    hide Advance, SignedBy, HexToAddress, HexToHash, Checksum, SignData, LookUp, Panics, Private, AnswerIsRight,
      Wallets.Registered;
    FirstRound(o, user, session, inputs[0]);
    SecondRound(o, user, s1, inputs[1]);
    ThirdRound(o, user, s2, inputs[2]);
    LastRound(o, user, s3, inputs[3]);
    if inputs[1].nonce.Some? && LookUp(inputs[2].items, inputs[2].reachable, user).Ok? {
      RightAnswer(o, LookUp(inputs[2].items, inputs[2].reachable, user).value, inputs[2].answer, inputs[1].nonce.value);
    }
  }

  lemma LookUpFinds(i: Invocation, user: string)
    ensures LookUp(i.items, i.reachable, user).Ok? <==> i.reachable && Wallets.Registered(i.items, user)
  {
    hide HexToAddress;
  }

  lemma FirstRound(o: Oracle, user: string, session: seq<ChallengeResult>, i: Invocation)
    requires !EndsWithCustom(session)
    ensures Advance(o, user, Defining(session), i) ==
      if !i.reachable then Crashed else if Wallets.Registered(i.items, user) then Creating(session) else Rejected
  {
    hide HexToAddress;
  }

  lemma SecondRound(o: Oracle, user: string, stage: Stage, i: Invocation)
    ensures stage.Creating? && i.nonce.None? ==> Advance(o, user, stage, i) == Crashed
    ensures stage.Creating? && i.nonce.Some? ==>
      Advance(o, user, stage, i) == Answering(stage.session, SignData(SIGN_IN_MESSAGE, i.nonce.value), Private(i.nonce.value))
    ensures Over(stage) ==> Advance(o, user, stage, i) == stage
  {
    hide SignData, Private;
  }

  lemma ThirdRound(o: Oracle, user: string, stage: Stage, i: Invocation)
    ensures stage.Answering? && (LookUp(i.items, i.reachable, user).Err? || Panics(i.answer)) ==>
      Advance(o, user, stage, i) == Crashed
    ensures stage.Answering? && LookUp(i.items, i.reachable, user).Ok? && !Panics(i.answer) ==>
      var t := Advance(o, user, stage, i);
      t.Defining? && EndsWithCustom(t.session) && t.session[|t.session| - 1].result
        == AnswerIsRight(o, LookUp(i.items, i.reachable, user).value, i.answer, stage.kept)
    ensures Over(stage) ==> Advance(o, user, stage, i) == stage
  {
    hide LookUp, Panics, AnswerIsRight;
  }

  lemma LastRound(o: Oracle, user: string, stage: Stage, i: Invocation)
    ensures stage.Defining? && EndsWithCustom(stage.session) ==>
      Advance(o, user, stage, i) == if stage.session[|stage.session| - 1].result then SignedIn else Rejected
    ensures Over(stage) ==> Advance(o, user, stage, i) == stage
  {
    hide LookUp;
  }

  lemma RightAnswer(o: Oracle, account: Address, answer: string, nonce: Hash)
    ensures AnswerIsRight(o, account, answer, Private(nonce))
      <==> SignedBy(o, Checksum(o.keccak, account), answer, SIGN_IN_MESSAGE, Some(nonce))
  {
    KeptParameters(nonce);
    hide SignedBy, Checksum, HexToHash, Private, Parameter;
  }

  lemma KeptParameters(nonce: Hash)
    ensures Parameter(Private(nonce), "message") == SIGN_IN_MESSAGE
    ensures HexToHash(Parameter(Private(nonce), "nonce")) == nonce
  {
    NonceRoundTrip(nonce);
  }

  lemma SignatureDecodes(o: Oracle, user: string, inputs: seq<Invocation>)
    requires |inputs| >= 4
    ensures Proved(o, user, inputs) ==> !Panics(inputs[2].answer)
  {
  }

  lemma FourRounds(o: Oracle, user: string, stage: Stage, inputs: seq<Invocation>)
    requires |inputs| >= 4
    ensures var s1 := Advance(o, user, stage, inputs[0]);
      var s2 := Advance(o, user, s1, inputs[1]);
      var s3 := Advance(o, user, s2, inputs[2]);
      AuthRun(o, user, stage, inputs) == AuthRun(o, user, Advance(o, user, s3, inputs[3]), inputs[4..])
  {
    hide Advance;
    var s1 := Advance(o, user, stage, inputs[0]);
    var s2 := Advance(o, user, s1, inputs[1]);
    assert inputs[1..][0] == inputs[1] && inputs[1..][1..] == inputs[2..];
    assert inputs[2..][0] == inputs[2] && inputs[2..][1..] == inputs[3..];
    assert inputs[3..][0] == inputs[3] && inputs[3..][1..] == inputs[4..];
    var s3 := Advance(o, user, s2, inputs[2]);
    assert AuthRun(o, user, s3, inputs[3..]) == AuthRun(o, user, Advance(o, user, s3, inputs[3]), inputs[4..]);
    assert AuthRun(o, user, s2, inputs[2..]) == AuthRun(o, user, s3, inputs[3..]);
    assert AuthRun(o, user, s1, inputs[1..]) == AuthRun(o, user, s2, inputs[2..]);
  }
}
