/** Article rows, and the three places that decide who owns an article: reading, editing and searching. */
module Articles {
  import opened Basics
  import opened Hex
  import opened Ledger
  import opened Wallets
  import Documents

  datatype Row = Row(id: string, author: string, tokenized: bool, doc: Documents.Doc)

  datatype OwnerInfo = OwnerInfo(id: string, address: Option<Address>)

  // ---------- what the code computes ----------

  /** `GetOwnerAddressOf`: only rows flagged as tokenized are looked up on the chain. */
  function GetOwnerAddressOf(row: Row, l: Ledger): Result<Option<Address>> {
    if row.tokenized then
      var owner := OwnerOfArticle(l, row.id);
      if owner == ZERO_ADDRESS then Err(TokenMissing) else Ok(Some(owner))
    else Ok(None)
  }

  /** The owner `Read` reports; an author without a wallet is reported without an address. */
  function ReadOwner(k: Keccak, row: Row, l: Ledger, items: Items): Result<OwnerInfo> {
    var ownerAddr :- GetOwnerAddressOf(row, l);
    match ownerAddr
    case Some(a) =>
      var ownerID :- GetIDByAddress(k, items, a);
      Ok(OwnerInfo(ownerID, Some(a)))
    case None =>
      match GetAddressByID(items, row.author)
      case Ok(a) => Ok(OwnerInfo(row.author, Some(a)))
      case Err(ItemNotFound) => Ok(OwnerInfo(row.author, None))
      case Err(e) => Err(e)
  }

  /** The owner of a search entry when no owner was asked for; here a missing wallet is an error. */
  function EntryOwner(k: Keccak, row: Row, l: Ledger, items: Items): Result<OwnerInfo> {
    var ownerAddr :- GetOwnerAddressOf(row, l);
    match ownerAddr
    case Some(a) =>
      var ownerID :- GetIDByAddress(k, items, a);
      Ok(OwnerInfo(ownerID, Some(a)))
    case None =>
      var a :- GetAddressByID(items, row.author);
      Ok(OwnerInfo(row.author, Some(a)))
  }

  /** The two remote reads of `AuthorizeEdit` happen at different moments, so each has its own argument. */
  function AuthorizeEdit(k: Keccak, editor: string, row: Row, requireNFT: bool, l: Ledger, items: Items): Result<()> {
    if row.tokenized then
      var ownerID :- GetIDByAddress(k, items, OwnerOfArticle(l, row.id));
      if editor == ownerID then Ok(()) else Err(Unauthorized)
    else if !requireNFT && editor == row.author then Ok(())
    else Err(Unauthorized)
  }

  // ---------- what ownership means ----------

  /** A tokenized article belongs to the user whose registered wallet holds its token, any other to its author. */
  ghost predicate Owns(user: string, row: Row, l: Ledger, items: Items) {
    if row.tokenized
    then Minted(l, row.id) && GetAddressByID(items, user) == Ok(OwnerOfArticle(l, row.id))
    else user == row.author
  }

  /** No user registered the zero address: registering needs its signature. */
  ghost predicate Sound(k: Keccak, items: Items) {
    && Paired(items)
    && AllCanonical(k, items)
    && !Taken(items, Checksum(k, ZERO_ADDRESS))
  }

  lemma MintedHasOwner(l: Ledger, article: string)
    requires Consistent(l)
    ensures Minted(l, article) <==> OwnerOfArticle(l, article) != ZERO_ADDRESS
  {
  }

  /** The user accepted for an edit is the owner; with the NFT required, the article must be tokenized too. */
  lemma EditorIsOwner(k: Keccak, editor: string, row: Row, requireNFT: bool, l: Ledger, items: Items)
    requires Consistent(l) && Sound(k, items)
    ensures AuthorizeEdit(k, editor, row, requireNFT, l, items).Ok?
      <==> Owns(editor, row, l, items) && (requireNFT ==> row.tokenized)
  {
    MintedHasOwner(l, row.id);
    CanonicalLookups(k, items, editor, OwnerOfArticle(l, row.id));
    hide Consistent, HexToAddress, Checksum, Paired, AllCanonical;
  }

  /** The owner `Read` reports owns the article, and `Read` fails only for articles without owner. */
  lemma ReaderSeesOwner(k: Keccak, user: string, row: Row, l: Ledger, items: Items)
    requires Consistent(l) && Sound(k, items)
    ensures ReadOwner(k, row, l, items).Ok? && ReadOwner(k, row, l, items).value.id == user
      <==> Owns(user, row, l, items)
  {
    MintedHasOwner(l, row.id);
    CanonicalLookups(k, items, user, OwnerOfArticle(l, row.id));
    hide Consistent, HexToAddress, Checksum, Paired, AllCanonical;
  }

  /** A search entry names the same owner, but fails also for owners who have no wallet. */
  lemma EntryNamesOwner(k: Keccak, user: string, row: Row, l: Ledger, items: Items)
    requires Consistent(l) && Sound(k, items)
    ensures EntryOwner(k, row, l, items).Ok? && EntryOwner(k, row, l, items).value.id == user
      <==> Owns(user, row, l, items) && Registered(items, user)
    ensures EntryOwner(k, row, l, items).Ok? ==> EntryOwner(k, row, l, items) == ReadOwner(k, row, l, items)
  {
    MintedHasOwner(l, row.id);
    CanonicalLookups(k, items, user, OwnerOfArticle(l, row.id));
    hide Consistent, HexToAddress, Checksum, Paired, AllCanonical;
  }

  /** The address is the user's registered wallet, and absent exactly without one. */
  predicate AddressIsWallet(owner: OwnerInfo, items: Items) {
    if (UserToWallet, owner.id) in items
    then owner.address == Some(HexToAddress(items[(UserToWallet, owner.id)]))
    else owner.address == None
  }

  /** The address shown with an owner is that owner's wallet; for a tokenized article it holds the token. */
  lemma ReportedAddress(k: Keccak, row: Row, l: Ledger, items: Items)
    requires Consistent(l) && Sound(k, items)
    ensures ReadOwner(k, row, l, items).Ok? ==> AddressIsWallet(ReadOwner(k, row, l, items).value, items)
    ensures EntryOwner(k, row, l, items).Ok? ==> AddressIsWallet(EntryOwner(k, row, l, items).value, items)
    ensures row.tokenized && ReadOwner(k, row, l, items).Ok? ==>
      var t := l.tokenIdOf[row.id];
      t in l.owner && ReadOwner(k, row, l, items).value.address == Some(l.owner[t])
  {
    MintedHasOwner(l, row.id);
    var owner := OwnerOfArticle(l, row.id);
    var holder := GetIDByAddress(k, items, owner);
    if holder.Ok? {
      CanonicalLookups(k, items, holder.value, owner);
    }
    hide Consistent, HexToAddress, Checksum, Paired, AllCanonical;
  }

  /** With the token goes the article: after a transfer exactly the user of the new wallet may edit. */
  lemma TransferHandsOverEditing(k: Keccak, editor: string, row: Row, l: Ledger, items: Items, sender: Address, to: Address)
    requires Consistent(l) && Sound(k, items) && row.tokenized && row.id in l.tokenIdOf && to != ZERO_ADDRESS
    requires var t := l.tokenIdOf[row.id]; var from := OwnerOfArticle(l, row.id);
      sender == from || (t in l.approved && l.approved[t] == sender) || (from, sender) in l.operators
    ensures var t := l.tokenIdOf[row.id];
      var m := Apply(l, TransferFrom(sender, OwnerOfArticle(l, row.id), to, t));
      AuthorizeEdit(k, editor, row, false, m, items).Ok? <==> GetAddressByID(items, editor) == Ok(to)
  {
    var t, from := l.tokenIdOf[row.id], OwnerOfArticle(l, row.id);
    assert t in l.owner && l.owner[t] == from;
    var m := Apply(l, TransferFrom(sender, from, to, t));
    TransferTakesEffect(l, sender, from, to, t);
    CallMovesOnly(l, TransferFrom(sender, from, to, t));
    CanonicalLookups(k, items, editor, to);
    assert OwnerOfArticle(m, row.id) == to;
    hide Consistent, HexToAddress, Checksum, Paired, AllCanonical, Apply;
  }

  /** Whenever they succeed, reading, searching and editing agree on one owner. */
  lemma AllPathsAgree(k: Keccak, editor: string, row: Row, l: Ledger, items: Items)
    requires Consistent(l) && Sound(k, items)
    ensures ReadOwner(k, row, l, items).Ok? && AuthorizeEdit(k, editor, row, false, l, items).Ok?
      ==> ReadOwner(k, row, l, items).value.id == editor
    ensures EntryOwner(k, row, l, items).Ok? && AuthorizeEdit(k, editor, row, false, l, items).Ok?
      ==> EntryOwner(k, row, l, items).value.id == editor
    ensures ReadOwner(k, row, l, items).Ok?
      ==> AuthorizeEdit(k, ReadOwner(k, row, l, items).value.id, row, false, l, items).Ok?
  {
    EditorIsOwner(k, editor, row, false, l, items);
    ReaderSeesOwner(k, editor, row, l, items);
    EntryNamesOwner(k, editor, row, l, items);
    if ReadOwner(k, row, l, items).Ok? {
      var owner := ReadOwner(k, row, l, items).value.id;
      ReaderSeesOwner(k, owner, row, l, items);
      EditorIsOwner(k, owner, row, false, l, items);
    }
  }

  /** While the flag is set and the token does not exist, nobody may edit and no owner is reported. */
  lemma NobodyWhilePending(k: Keccak, user: string, row: Row, l: Ledger, items: Items)
    requires Consistent(l) && Sound(k, items)
    requires row.tokenized && !Minted(l, row.id)
    ensures AuthorizeEdit(k, user, row, false, l, items).Err?
    ensures ReadOwner(k, row, l, items) == Err(TokenMissing) == EntryOwner(k, row, l, items)
  {
    EditorIsOwner(k, user, row, false, l, items);
  }

  /** Without the assumption on the zero address, someone may edit a pending article exactly if it is registered. */
  lemma PendingEditorIffZeroRegistered(k: Keccak, row: Row, l: Ledger, items: Items)
    requires Consistent(l) && row.tokenized && !Minted(l, row.id)
    ensures (exists u :: AuthorizeEdit(k, u, row, false, l, items).Ok?) <==> Taken(items, Checksum(k, ZERO_ADDRESS))
  {
    hide Consistent, HexToAddress, Checksum;
    if Taken(items, Checksum(k, ZERO_ADDRESS)) {
      assert AuthorizeEdit(k, items[(WalletToUser, Checksum(k, ZERO_ADDRESS))], row, false, l, items).Ok?;
    }
  }

  lemma WalletsAreNotZero(k: Keccak, items: Items, user: string)
    requires Sound(k, items)
    ensures GetAddressByID(items, user) != Ok(ZERO_ADDRESS)
  {
    CanonicalLookups(k, items, user, ZERO_ADDRESS);
  }
}
