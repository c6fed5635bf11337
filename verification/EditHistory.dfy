/** Who makes the edits that take effect, over whole runs with interleaving. */
module EditHistory {
  import opened Basics
  import opened Hex
  import opened Signature
  import opened Ledger
  import opened Wallets
  import Documents
  import Articles
  import opened Protocol
  import opened Invariants
  import Steps
  import opened Safety

  /** The account an edit of a tokenized article rests on, once the chain has been asked. */
  function Claimed(s: State, r: nat): Option<Address> {
    if !Editing(s, r) then None
    else match s.requests[r].step
      case OwnerRead(_, owner) => Some(owner)
      case Authorized(row) => if row.tokenized then RegisteredTo(s.items, s.requests[r].editor) else None
      case EditDone(row) => if row.tokenized then RegisteredTo(s.items, s.requests[r].editor) else None
      case _ => None
  }

  function RegisteredTo(items: Items, user: string): Option<Address> {
    match GetAddressByID(items, user)
    case Ok(a) => Some(a)
    case Err(_) => None
  }

  // ---------- who touches an edit ----------

  /** The action is a step of edit request `r`. */
  predicate StepsEdit(a: Action, r: nat) {
    match a
    case BeginEdit(q, _, _, _) => q == r
    case AskChain(q) => q == r
    case ResolveOwner(q) => q == r
    case CommitEdit(q, _) => q == r
    case _ => false
  }

  /** As an edit, request `r` is the same in both states. */
  predicate SameEdit(s: State, t: State, r: nat) {
    && (Editing(t, r) <==> Editing(s, r))
    && (Editing(s, r) ==> t.requests[r] == s.requests[r])
  }

  lemma MintChecksKeepEdits(o: Oracle, s: State, q: nat, nonce: Hash, r: nat)
    ensures SameEdit(s, TakeNonceStep(o, s, q, nonce), r)
    ensures SameEdit(s, LoadRowStep(s, q), r) && SameEdit(s, CheckAuthorStep(o, s, q), r)
  {
    hide SignedBy, GetAddressByID, GetNonceByID, AfterReplace, Checksum;
  }

  lemma MintEffectsKeepEdits(s: State, q: nat, ok: bool, r: nat)
    ensures SameEdit(s, SendMintStep(s, q, ok), r) && SameEdit(s, UploadStep(s, q, ok), r)
    ensures SameEdit(s, SaveFlagStep(s, q, ok), r)
  {
    hide HexToAddress, SameArticle;
  }

  lemma OtherEditsKeepEdits(o: Oracle, s: State, q: nat, ok: bool, r: nat)
    requires q != r
    ensures SameEdit(s, AskChainStep(s, q), r) && SameEdit(s, ResolveOwnerStep(o, s, q), r)
    ensures SameEdit(s, CommitEditStep(o, s, q, ok), r)
  {
    hide GetIDByAddress, OwnerOfArticle, Documents.Edited;
  }

  lemma OutsideKeepsEdits(o: Oracle, s: State, a: Action, r: nat)
    requires a.Register? || a.Create? || a.Mine? || a.Trade?
    ensures SameEdit(s, Next(o, s, a), r)
  {
    hide AfterPut, PutAllowed, Apply, Mint;
  }

  lemma BeginningKeepsEdits(o: Oracle, s: State, a: Action, r: nat)
    requires a.BeginMint? || (a.BeginEdit? && a.r != r)
    ensures SameEdit(s, Next(o, s, a), r)
  {
    hide GetIDByAddress, HexToAddress;
  }

  lemma OthersUntouched(o: Oracle, s: State, a: Action, r: nat)
    requires !StepsEdit(a, r)
    ensures SameEdit(s, Next(o, s, a), r)
  {
    hide TakeNonceStep, LoadRowStep, CheckAuthorStep, SendMintStep, UploadStep, SaveFlagStep, AskChainStep,
      ResolveOwnerStep, CommitEditStep, MineStep, RegisterStep, CreateStep, BeginMintStep, BeginEditStep, SameEdit, Apply;
    match a {
      case Register(_, _, _) => OutsideKeepsEdits(o, s, a, r);
      case Create(_, _, _, _) => OutsideKeepsEdits(o, s, a, r);
      case Mine(_, _, _) => OutsideKeepsEdits(o, s, a, r);
      case Trade(_) => OutsideKeepsEdits(o, s, a, r);
      case BeginMint(_, _, _, _) => BeginningKeepsEdits(o, s, a, r);
      case BeginEdit(_, _, _, _) => BeginningKeepsEdits(o, s, a, r);
      case TakeNonce(q, nonce) => MintChecksKeepEdits(o, s, q, nonce, r);
      case LoadRow(q) => MintChecksKeepEdits(o, s, q, 0, r);
      case CheckAuthor(q) => MintChecksKeepEdits(o, s, q, 0, r);
      case SendMint(q, ok) => MintEffectsKeepEdits(s, q, ok, r);
      case UploadMetadata(q, ok) => MintEffectsKeepEdits(s, q, ok, r);
      case SaveFlag(q, ok) => MintEffectsKeepEdits(s, q, ok, r);
      case AskChain(q) => OtherEditsKeepEdits(o, s, q, true, r);
      case ResolveOwner(q) => OtherEditsKeepEdits(o, s, q, true, r);
      case CommitEdit(q, ok) => OtherEditsKeepEdits(o, s, q, ok, r);
    }
  }

  /** A claim that exists persists as long as the request stands where it is. */
  lemma SameClaim(o: Oracle, s: State, t: State, r: nat)
    requires Inv(o, s) && Grows(s, t) && Editing(s, r) && SameEdit(s, t, r)
    ensures Claimed(t, r) == Claimed(s, r)
  {
    Steps.ItsPhase(o, s, r);
    hide Inv, HexToAddress, SnapshotOK, Grows, Registered;
    if Registered(s.items, s.requests[r].editor) {
      RegistrationStays(s, t, s.requests[r].editor);
    }
  }

  lemma RegistrationStays(s: State, t: State, user: string)
    requires Grows(s, t) && Registered(s.items, user)
    ensures RegisteredTo(t.items, user) == RegisteredTo(s.items, user)
  {
    WalletStays(s, t, user);
    hide HexToAddress, Promised;
  }

  /** The steps of an edit itself: only asking the chain makes a new claim. */
  lemma AskingClaims(o: Oracle, s: State, r: nat)
    requires Inv(o, s) && Editing(s, r)
    ensures Claimed(AskChainStep(s, r), r) == Claimed(s, r)
      || (s.requests[r].step.RowRead?
          && Claimed(AskChainStep(s, r), r) == Some(OwnerOfArticle(s.chain, s.requests[r].article)))
  {
    Steps.ItsPhase(o, s, r);
    hide Inv, RegisteredTo, OwnerOfArticle, EditorOK;
  }

  lemma ResolvingKeepsClaim(o: Oracle, s: State, r: nat)
    requires Inv(o, s) && Editing(s, r)
    ensures Claimed(ResolveOwnerStep(o, s, r), r).Some? ==> Claimed(ResolveOwnerStep(o, s, r), r) == Claimed(s, r)
  {
    if s.requests[r].step.OwnerRead? {
      StoresGive(o, s);
      hide Inv, Articles.Sound, Consistent, GetIDByAddress, GetAddressByID;
      Steps.FoundIsRegistered(o.keccak, s.items, s.requests[r].step.owner);
      ResolvedClaim(o, s, r);
    }
  }

  lemma ResolvedClaim(o: Oracle, s: State, r: nat)
    requires Editing(s, r) && s.requests[r].step.OwnerRead?
    requires var id := GetIDByAddress(o.keccak, s.items, s.requests[r].step.owner);
      id.Ok? ==> GetAddressByID(s.items, id.value) == Ok(s.requests[r].step.owner)
    ensures Claimed(ResolveOwnerStep(o, s, r), r).Some? ==> Claimed(ResolveOwnerStep(o, s, r), r) == Claimed(s, r)
  {
    hide GetIDByAddress, GetAddressByID;
  }

  lemma CommittingKeepsClaim(o: Oracle, s: State, r: nat, ok: bool)
    requires Editing(s, r)
    ensures Claimed(CommitEditStep(o, s, r, ok), r).Some? ==> Claimed(CommitEditStep(o, s, r, ok), r) == Claimed(s, r)
  {
    hide RegisteredTo, Documents.Edited;
  }

  /** The edit is waiting for the chain's answer, and the account holds the article's token. */
  predicate Asking(s: State, r: nat, editor: string, article: string, account: Address) {
    && Editing(s, r) && s.requests[r].step.RowRead?
    && s.requests[r].editor == editor && s.requests[r].article == article
    && OwnerOfArticle(s.chain, article) == account
  }

  predicate SameEditor(s: State, t: State, r: nat) {
    && Editing(s, r) && Editing(t, r)
    && t.requests[r].editor == s.requests[r].editor && t.requests[r].article == s.requests[r].article
  }

  lemma ClaimsComeFromTheChain(o: Oracle, s: State, a: Action, r: nat)
    requires Inv(o, s) && Admissible(o, s, a) && Claimed(Next(o, s, a), r).Some?
    ensures var t := Next(o, s, a);
      && SameEditor(s, t, r)
      && (Claimed(t, r) == Claimed(s, r)
          || Asking(s, r, t.requests[r].editor, t.requests[r].article, Claimed(t, r).value))
  {
    var t := Next(o, s, a);
    Steps.NextKeeps(o, s, a);
    ClaimsAreEdits(t, r);
    hide Inv, Claimed, OwnerOfArticle, Grows;
    if !StepsEdit(a, r) {
      OthersUntouched(o, s, a, r);
      hide Next;
      SameClaim(o, s, t, r);
    } else if a.BeginEdit? {
      BeginningClaimsNothing(o, s, a, r);
    } else {
      OwnRequest(o, s, a, r);
      match a {
        case AskChain(_) => AskingClaims(o, s, r);
        case ResolveOwner(_) => ResolvingKeepsClaim(o, s, r);
        case CommitEdit(_, ok) => CommittingKeepsClaim(o, s, r, ok);
      }
    }
  }

  lemma ClaimsAreEdits(s: State, r: nat)
    requires Claimed(s, r).Some?
    ensures Editing(s, r)
  {
  }

  lemma OwnRequest(o: Oracle, s: State, a: Action, r: nat)
    requires a.AskChain? || a.ResolveOwner? || a.CommitEdit?
    requires a.r == r && Editing(Next(o, s, a), r)
    ensures SameEditor(s, Next(o, s, a), r)
  {
    hide GetIDByAddress, OwnerOfArticle, Documents.Edited;
  }

  /** An edit that has only just begun claims nothing. */
  lemma BeginningClaimsNothing(o: Oracle, s: State, a: Action, r: nat)
    requires a.BeginEdit? && a.r == r && Claimed(Next(o, s, a), r).Some?
    ensures Next(o, s, a) == s && SameEditor(s, s, r)
  {
    hide RegisteredTo;
  }

  // ---------- runs ----------

  /** After the first `i` actions the request was asking the chain, and the account held the token. */
  ghost predicate HeldAfter(o: Oracle, actions: seq<Action>, i: nat, r: nat, editor: string, article: string,
                            account: Address) {
    i <= |actions| && Asking(Reached(o, actions[..i]), r, editor, article, account)
  }

  lemma HeldEarlier(o: Oracle, actions: seq<Action>, i: nat, r: nat, editor: string, article: string, account: Address)
    requires actions != [] && HeldAfter(o, actions[..|actions| - 1], i, r, editor, article, account)
    ensures HeldAfter(o, actions, i, r, editor, article, account)
  {
    assert actions[..|actions| - 1][..i] == actions[..i];
    hide Reached, Asking;
  }

  /** After the last action a claim is either older or what the chain said just before. */
  lemma LatestClaim(o: Oracle, actions: seq<Action>, r: nat)
    requires actions != [] && Claimed(Reached(o, actions), r).Some?
    ensures var s := Reached(o, actions[..|actions| - 1]); var t := Reached(o, actions);
      && SameEditor(s, t, r)
      && (Claimed(t, r) == Claimed(s, r)
          || HeldAfter(o, actions, |actions| - 1, r, t.requests[r].editor, t.requests[r].article, Claimed(t, r).value))
  {
    var before := actions[..|actions| - 1];
    ReachedHolds(o, before);
    LastAction(o, actions);
    ClaimsAreEdits(Reached(o, actions), r);
    hide Inv, Next, Reached, Admissible, Claimed, Asking;
    if Admissible(o, Reached(o, before), actions[|actions| - 1]) {
      ClaimsComeFromTheChain(o, Reached(o, before), actions[|actions| - 1], r);
    }
  }

  /** The account an edit rests on held the token while this very request was asking the chain. */
  lemma {:induction false} ClaimWasHeld(o: Oracle, actions: seq<Action>, r: nat)
    requires Claimed(Reached(o, actions), r).Some?
    ensures var s := Reached(o, actions);
      && Editing(s, r)
      && exists i :: HeldAfter(o, actions, i, r, s.requests[r].editor, s.requests[r].article, Claimed(s, r).value)
    decreases |actions|
  {
    if actions != [] {
      LatestClaim(o, actions, r);
      hide Reached, HeldAfter, Claimed;
      var before := actions[..|actions| - 1];
      var t := Reached(o, actions);
      if Claimed(t, r) == Claimed(Reached(o, before), r) {
        ClaimWasHeld(o, before, r);
        var i :| HeldAfter(o, before, i, r, t.requests[r].editor, t.requests[r].article, Claimed(t, r).value);
        HeldEarlier(o, actions, i, r, t.requests[r].editor, t.requests[r].article, Claimed(t, r).value);
      }
    }
  }

  lemma LastAction(o: Oracle, actions: seq<Action>)
    requires actions != []
    ensures var s := Reached(o, actions[..|actions| - 1]); var a := actions[|actions| - 1];
      Reached(o, actions) == if Admissible(o, s, a) then Next(o, s, a) else s
  {
    hide Next, Admissible;
    assert actions == actions[..|actions| - 1] + [actions[|actions| - 1]];
    RunsCompose(o, INITIAL, actions[..|actions| - 1], [actions[|actions| - 1]]);
  }

  /**
   In every run, each edit that took effect was made by the author of an article not tokenized when the request
   read it, or by a user whose registered account held the article's token while this request was in flight:
   after its row was read, when the chain was asked.
   */
  lemma EditsAreTheOwners(o: Oracle, actions: seq<Action>, r: nat)
    requires Editing(Reached(o, actions), r) && Reached(o, actions).requests[r].step.EditDone?
    ensures var s := Reached(o, actions); var q := s.requests[r];
      && q.step.row.id == q.article
      && (!q.step.row.tokenized ==> q.editor == q.step.row.author)
      && (q.step.row.tokenized ==>
            GetAddressByID(s.items, q.editor).Ok? && GetAddressByID(s.items, q.editor).value != ZERO_ADDRESS
            && exists i :: HeldAfter(o, actions, i, r, q.editor, q.article, GetAddressByID(s.items, q.editor).value))
  {
    var s := Reached(o, actions);
    ReachedHolds(o, actions);
    Steps.ItsPhase(o, s, r);
    StoresGive(o, s);
    Articles.WalletsAreNotZero(o.keccak, s.items, s.requests[r].editor);
    hide Inv, Reached, Articles.Sound, Consistent, HexToAddress, HeldAfter;
    if s.requests[r].step.row.tokenized {
      ClaimWasHeld(o, actions, r);
    }
  }
}
