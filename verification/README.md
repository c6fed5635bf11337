# Who owns an article: a verified model of Knowtfolio

Knowtfolio is a blog whose articles can be turned into NFTs; whoever holds the token may edit the article.
Who owns an article is decided by three stores that know nothing of each other: the ERC-721 contract, the
DynamoDB table of wallets and nonces, and the MySQL rows with their "tokenized" flag. This project models
the three stores, the calls that change them and the chain that moves underneath, and proves what holds
between them over whole runs.

| file | contents |
|---|---|
| `Basics.dfy` | results and errors |
| `Hex.dfy` | addresses, nonces, EIP-55 spelling, the text users sign |
| `Signature.dfy` | `VerifySignature` |
| `Ledger.dfy` | what the contract promises, as a value; mints with reentrant receivers; conservation |
| `Contract.dfy` | the contract as a class: owner map, balances, enumeration arrays, URIs, article map |
| `Wallets.dfy` | the wallet table as a class: conditional transactions, nonce replacement, deletion |
| `Documents.dfy` | documents, their search text, LIKE and keyword splitting |
| `Articles.dfy` | the three ways the server determines an owner, against one definition of ownership |
| `Metadata.dfy` | token URIs and the CDN rewrite |
| `Search.dfy` | search by owner and keywords, paging, entries |
| `Protocol.dfy` | the joint state and its steps |
| `Invariants.dfy`, `Steps.dfy` | the invariant, and that every step keeps it |
| `Safety.dfy`, `EditHistory.dfy` | the promises over all runs |
| `Scenarios.dfy` | calls without interleaving; runs in which a promise fails |
| `Services.dfy` | the article and NFT services as methods over the stores |
| `AuthChallenge.dfy` | the wallet sign-in handlers and their runs |

`dafny verify dfyconfig.toml` checks everything.

## How to read it

A state of `Protocol` holds the wallet table, the rows, the chain, the pending mints, the bucket and the
requests in flight. Each remote operation of a request is one step, so a run interleaves registrations, any
number of mint and edit requests, failures at any remote operation, mined mints and public token calls. What a
failed request already sent to the chain or the bucket stays. `Safety.Run` applies any sequence of actions;
"reachable" below means `Safety.Reached`.

The class `Contract.Knowtfolio` and the functions of `Ledger` are two forms of the contract: every method is
proved to make the ledger's step, and the per-owner arrays to agree with the owner map. Likewise the methods of
`Services.Backend` are proved to make the protocol's steps when nothing interleaves.

Taken for granted:

- Library functions are unknown functions: Keccak letters of an address, signer recovery from a text and 65
  bytes, and tag stripping (`Signature.Oracle`). Every theorem holds for all choices of them.
- Generated nonces and article ids are new (`Protocol.Admissible`).
- In runs, wallets are registered in EIP-55 form and are not the zero address. The registration endpoint does
  not enforce the form; `Wallets.LookupsInverseIffCanonical`, `Wallets.DeleteKeepsPaired`,
  `Wallets.DeleteUndoesPut` and `Wallets.TwoSpellingsOneAccount` say exactly what depends on it.
- Database transactions are serializable: `Update` and the saving of the flag commit only if the row is still
  the one they read. `Scenarios.OverwritingLosesTheFlag` says exactly when a write without this keeps the row
  sound. `Delete` is not a transaction and deletes whatever row is there.
- In runs, wallets are not deleted, and nonces are replaced only by mint requests.
- The contract's owner account makes no calls from inside a receiver, so a receiver's calls are EIP-721 calls
  only. (EIP-721, "Specification"; a `safeTransferFrom` is a transfer followed by further calls.)

Three findings deserve attention. A mint whose metadata upload fails stays on the chain, and after the token is sold
the search by owner lists the article for the buyer although the author still owns it
(`Scenarios.HalfFailedMintMisleadsSearch`, `Scenarios.SearchCanBeMisled`). The search goes wrong only for such rows,
whose token was transferred while their flag was not set (`Search.SearchRefinesOwnership`,
`Safety.StrayTokenWasMoved`). A page number so large that its offset passes 2^63 may show entries instead of an
empty page: at size 1, page 2^63+1 shows page one, at size 2, page 2^63+2 shows page two
(`Search.WrappedPageStartsOver`); `Search.PageIsRight` says exactly when the right page is shown. A search without
an owner fails as soon as one listed article belongs to a user without a wallet, while reading that article works
(`Articles.EntryNamesOwner`, `Articles.ReaderSeesOwner`).

## Model

| member | source | states |
|---|---|---|
| Hex.OneCanonicalString | server/gateways/aws/dynamodb.go:96-98 | parsing then printing sends two spellings of the API's address shape to one key exactly when they have the same digits |
| Hex.AnySpellingIsRead | server/gateways/aws/dynamodb.go:44-51 | every spelling of an address, in any mixture of letter case, is read as that address |
| Hex.AnyLengthIsRead | server/gateways/aws/dynamodb.go:44-60 | a spelling with another number of digits is read as if padded with zeros on the left, or cut to the last 40, for a nonce 64 |
| Hex.ChecksumSpells | server/gateways/ethereum/verify_signature.go:52-55 | the EIP-55 form of an address spells it and is read back as it |
| Hex.ChecksumLetters | server/gateways/ethereum/verify_signature.go:52-55 | character by character: a digit is printed as itself, a letter in upper case exactly when the Keccak nibble at its place is 8 or more |
| Hex.NonceRoundTrip | server/gateways/aws/dynamodb.go:53-60 | printing a nonce, storing the text and parsing it gives the nonce back |
| Hex.HashLetters | server/gateways/aws/dynamodb.go:64-82 | nonces are printed in lower case, most significant digit first |
| Hex.SignDataInjective | server/gateways/ethereum/verify_signature.go:22-24 | different messages or nonces never give the same text to sign |
| Hex.ClientAndServerAgree | client/src/apis/knowtfolio.ts:78-81 | the text the client signs over the stored nonce text is the one the server rebuilds from the parsed nonce |
| Signature.DecodesExactlySpellings | server/gateways/ethereum/verify_signature.go:28-31 | a text is decoded to some bytes exactly when it spells them after the prefix, high digit first, in letters of either case |
| Signature.PrintedIsDecoded | server/gateways/ethereum/verify_signature.go:28-31 | decoding inverts printing, for all byte sequences |
| Signature.WalletSignature | server/gateways/ethereum/verify_signature.go:33-55 | a wallet's printed 65 bytes count as signed by an address exactly when recovery, from the signed text and these bytes with a last byte of 27 or 28 lowered to 0 or 1, gives an account with that EIP-55 string |
| Signature.VerifySignature | server/gateways/ethereum/verify_signature.go:27-58 | accepts exactly the signatures whose recovered signer has the given EIP-55 string; of 65 printed bytes the first 64 reach recovery unchanged and the last lowered by 27 if it is 27 or more, together with the message, a newline and the bracketed nonce; text that is not hex is an error, a decoded signature under 65 bytes a panic |
| Signature.SignerIsCanonical | server/gateways/ethereum/verify_signature.go:52-55 | a signature is accepted for at most one address string, and that one is in EIP-55 form |
| Signature.LegacyRecoveryByte | server/gateways/ethereum/verify_signature.go:33-37 | numbering the recovery byte from 27 instead of 0 never changes the verdict |
| Ledger.MintKeepsInvariant | blockchain/contracts/Knowtfolio.sol:39-53 | whatever public calls the receiver makes before the article is recorded, minting re-establishes "token ids are 1..counter and determine their articles and conversely", names one new token, and leaves unmoved tokens with their owners |
| Ledger.CallsActAsAfterMint | blockchain/contracts/Knowtfolio.sol:46-50 | the receiver's calls, made before the article is recorded, have together the effect they would have after the mint |
| Ledger.OwnersLeftByCalls | blockchain/contracts/Knowtfolio.sol:46-50 | owners after an accepted mint, one call at a time: without calls the recipient has the new token, and each further call changes the owner of a token exactly if it is a permitted transfer of that token |
| Ledger.ForwardedInsideMint | blockchain/contracts/Knowtfolio.sol:46-50 | if the recipient passes the token on from inside the mint, the article belongs to the account it was passed to |
| Ledger.HistoryIsConsistent | blockchain/contracts/Knowtfolio.sol:39-53 | after any sequence of mints and public calls the invariant holds and there are exactly as many minted articles as tokens |
| Ledger.CallsMoveOnly | blockchain/contracts/ERC721URIStorageEnumerableUpgradeable.sol:14-24 | public calls never touch counter, URIs or article map, create or destroy tokens, or change the owner of a token not named in a transfer |
| Ledger.OnlyPermittedMoves | blockchain/contracts/ERC721URIStorageEnumerableUpgradeable.sol:10-13 | an owner changes only in a transfer sent by owner, approved account or operator, and the approval ends with it |
| Ledger.ApprovalIsAsLastGiven | blockchain/contracts/ERC721URIStorageEnumerableUpgradeable.sol:10-13 | after an approval by owner or operator, and any calls that leave this token and its approval alone, an account that is neither owner nor operator can transfer the token exactly if it is the one approved; approving the zero address revokes |
| Ledger.OperatorIsAsLastSet | blockchain/contracts/ERC721URIStorageEnumerableUpgradeable.sol:10-13 | after an operator is switched on or off, and any calls that do not switch it again, it can transfer any token of the holder, respectively none it has no approval for |
| Ledger.HolderIsSafe | blockchain/contracts/ERC721URIStorageEnumerableUpgradeable.sol:10-13 | a holder who granted nothing and makes no call keeps the token through any number of calls by others |
| Ledger.BalancesAddUp | blockchain/contracts/Knowtfolio.sol:75-87 | the numbers of tokens of all holders add up to the token counter |
| Contract.AddedLists | blockchain/contracts/ERC721URIStorageEnumerableUpgradeable.sol:14-24 | appending a new token keeps every owner's array the exact list of that owner's tokens |
| Contract.RemovedLists | blockchain/contracts/ERC721URIStorageEnumerableUpgradeable.sol:14-24 | filling the hole with the last token keeps every owner's array the exact list of the remaining tokens |
| Contract.BalanceCounts | blockchain/contracts/Knowtfolio.sol:80-81 | a balance is the number of tokens whose owner is that account |
| Contract.Knowtfolio.BeforeTokenTransfer | blockchain/contracts/ERC721URIStorageEnumerableUpgradeable.sol:14-24 | the hook leaves the arrays in agreement with the owners and balances that are written after it, for mints, transfers and transfers to oneself |
| Contract.Knowtfolio.TransferFrom | blockchain/contracts/ERC721URIStorageEnumerableUpgradeable.sol:14-24 | succeeds exactly for an existing token of `from`, a real receiver, and the owner, approved account or operator as sender; then the receiver owns it and the approval is gone, otherwise nothing changes; the arrays stay in agreement |
| Contract.Knowtfolio.Approve | blockchain/contracts/ERC721URIStorageEnumerableUpgradeable.sol:10-13 | succeeds exactly for owner or operator and an account other than the owner; records the account, or removes the approval for the zero address |
| Contract.Knowtfolio.SetApprovalForAll | blockchain/contracts/ERC721URIStorageEnumerableUpgradeable.sol:10-13 | succeeds exactly for another account; then that account is an operator exactly if switched on, and no other pair changes |
| Contract.Knowtfolio.SafeMint | blockchain/contracts/Knowtfolio.sol:48 | the token is owned and listed when the receiver runs, and the receiver's calls have their normal effect |
| Contract.Knowtfolio.MintNFT | blockchain/contracts/Knowtfolio.sol:39-53 | only for the contract owner, a new article and a real recipient; a refusal by the receiver restores the whole storage; otherwise the next token bears the article and the receiver's calls have the effect they would have after a mint without calls, so a token passed on inside belongs to the account it was passed to; the invariant holds in either case |
| Contract.Knowtfolio.GetOwnerOfArticle | blockchain/contracts/Knowtfolio.sol:59-70 | the owner of the token that bears the article; the zero address exactly when there is none |
| Contract.Knowtfolio.GetArticleIdsOwnedBy | blockchain/contracts/Knowtfolio.sol:75-87 | base URI plus article occurs exactly once if the user owns the article's token and not at all otherwise; nothing else occurs; the length is the number of tokens owned |
| Contract.Knowtfolio.TokenURIIsArticle | blockchain/contracts/ERC721URIStorageEnumerableUpgradeable.sol:44-52 | every token's URI is base plus the one article that maps to the token |
| Wallets.DynamoTable.TransactPut | server/gateways/aws/dynamodb.go:152-158 | all writes or none; one reason for each write |
| Wallets.DynamoTable.PutUserWallet | server/gateways/aws/dynamodb.go:122-189 | "user already has a wallet" exactly when the user is registered, otherwise "wallet taken" exactly when it is, otherwise the three rows are written and the user's look-ups give wallet and nonce; a failure changes nothing; the registry stays sound |
| Wallets.DynamoTable.GetAndReplaceNonceByID | server/gateways/aws/dynamodb.go:64-94 | returns the stored nonce and stores the new one; for a user without a row it fails but stores the nonce all the same |
| Wallets.DynamoTable.GenerateAndPutNonce | server/gateways/aws/dynamodb.go:100-120 | the user's nonce reads as the new one afterwards |
| Wallets.DynamoTable.DeleteUserWalletByID | server/gateways/aws/dynamodb.go:191-217 | fails exactly for unregistered users; keeps a sound registry sound exactly if the wallet was registered in EIP-55 form |
| Wallets.LookupsInverseIffCanonical | server/gateways/aws/dynamodb.go:44-51 | user-to-address and address-to-user look-ups are mutually inverse exactly when every wallet was registered in EIP-55 form |
| Wallets.TwoSpellingsOneAccount | infrastructure/function_scripts/pkg/models/post_wallet_address_request.go:7-21 | two users can register two spellings of one account, and both are then resolved to it |
| Wallets.PutKeepsPaired | server/gateways/aws/dynamodb.go:152-158 | registration keeps users and wallets in bijection and nonces with exactly the registered users |
| Wallets.ReplaceKeepsPaired | server/gateways/aws/dynamodb.go:74-82 | replacing a nonce keeps the registry sound exactly when the user is registered |
| Wallets.DeleteKeepsPaired | server/gateways/aws/dynamodb.go:209-215 | deletion keeps the registry sound exactly when the wallet was registered in EIP-55 form |
| Wallets.DeleteUndoesPut | server/gateways/aws/dynamodb.go:191-217 | deletion restores the table before the registration exactly when the wallet was given in EIP-55 form |
| Wallets.RegistryHistory | server/gateways/aws/dynamodb.go:64-94 | under any sequence of registrations and replacements the registry stays sound and registered pairs never change |
| Documents.NeverStale | server/models/document.go:31-61 | after any edits a document is the one that would be created from its latest title and content, with the latest title, a newline and the latest content without tags as search text |
| Documents.Document.New | server/models/document.go:31-42 | a new document has the given title and content, and both, the content without tags, as search text |
| Documents.Document.SetTitleIfPresent | server/models/document.go:44-49 | sets the title only if given, and then the search text from it and the content |
| Documents.Document.SetContentIfPresent | server/models/document.go:51-56 | sets the content only if given, and then the search text from the title and it |
| Documents.Document.ReloadRawText | server/models/document.go:58-61 | the search text is title, newline and stripped content; nothing else changes |
| Documents.LikeIsContains | server/services/search.go:76-78 | for a word without wildcards the LIKE clause holds exactly when the text contains the word |
| Documents.QuotedLikeIsContains | server/services/search.go:76-78 | the same for every word, however escaped with backslashes, as long as wildcards and backslashes are |
| Documents.UnderscoresCount | server/services/search.go:76-78 | an underscore stands for exactly one character |
| Documents.WordsOfEitherPart | server/models/document.go:58-61 | a word of one line occurs in a search text exactly if it occurs in the title or in the stripped content |
| Documents.KeywordsAreContained | server/services/search.go:74-79 | for plain keywords the clauses hold exactly when every space-separated word occurs in the text |
| Documents.SplitIsInverseOfJoin | server/services/search.go:75 | splitting at spaces loses nothing and leaves no space in a word |
| Articles.EditorIsOwner | server/services/articles.go:145-170 | the user accepted for an edit is the owner, with the NFT required also tokenized |
| Articles.ReaderSeesOwner | server/services/articles.go:63-85 | reading reports the owner, and fails only for articles without one |
| Articles.EntryNamesOwner | server/services/search.go:113-130 | a search entry names the same owner, but fails for owners without a wallet |
| Articles.ReportedAddress | server/services/articles.go:63-85 | the address reported with an owner, on reading or in an entry, is that user's registered wallet, absent exactly without one; for a tokenized article it holds the token |
| Articles.TransferHandsOverEditing | server/services/articles.go:145-170 | after a permitted transfer of an article's token exactly the user of the receiving wallet may edit the article |
| Articles.AllPathsAgree | server/services/articles.go:53-86 | whenever they succeed, reading, searching and editing agree on one owner |
| Articles.NobodyWhilePending | server/gateways/ethereum/client.go:39-57 | with the flag set and no token, nobody may edit and no owner is reported |
| Articles.PendingEditorIffZeroRegistered | server/services/articles.go:148-157 | in that state someone may edit exactly if the zero address is registered |
| Metadata.TrimmedURIIsArticle | server/services/search.go:61-64 | trimming the base from a token's URI gives the article id, even if the id starts like the base |
| Metadata.URILeadsToMetadata | infrastructure/function_scripts/appendDotJson.js:1-5 | the rewritten path of a token's URI names the object uploaded when the article was minted |
| Metadata.KeysAreDistinct | server/services/nfts.go:97-102 | different articles never share a metadata object |
| Metadata.ViewerRequest.AppendDotJson | infrastructure/function_scripts/appendDotJson.js:1-5 | the path of any article's token URI becomes the path of the object uploaded when that article was minted |
| Search.LoadOwnedIDs | server/services/search.go:54-65 | the trimmed list is exactly the set of articles whose token the account holds |
| Search.ConditionAgainstOwnership | server/services/search.go:67-72 | the SQL condition holds exactly for the user's own rows and for stray rows: unflagged rows of other authors whose token is in the user's wallet |
| Search.SearchMissesNothing | server/services/search.go:43-73 | without the stray rows the result is the list of owned rows, in order |
| Search.SearchRefinesOwnership | server/services/search.go:43-73 | searching by owner equals filtering by owner if and only if no row that passes the keywords is stray |
| Search.SelectContaining | server/services/search.go:74-79 | without an owner, plain keywords select the rows whose text contains every space-separated word |
| Search.OwnedContaining | server/services/search.go:67-79 | the owned rows that match the keywords are the rows the user owns among those that contain every word |
| Search.NoStrayWhenFlagsAgree | server/services/search.go:67-72 | where flag and chain agree there are no stray rows |
| Search.OffsetIsExact | server/services/search.go:86-87 | the wrapped 64-bit offset is the exact one if and only if the page number is at most (2^63-1)/size + 1 |
| Search.PageIsRight | server/services/search.go:86-90 | the page shown of a non-empty list is the right one if and only if the page number is within that bound or its offset, reduced to 64 bits, lies between the list's end and 2^63 |
| Search.WrappedPageStartsOver | server/services/search.go:86-90 | inputs past that bound for which pages one and two are shown |
| Search.AllPages | client/src/components/organisms/tables/SearchResultTable/index.tsx:23-30 | pages 1 to the client's page count, put together, are the whole list with each entry once |
| Search.SearchForArticles | server/services/search.go:37-146 | counts the rows meeting the conditions, lists those of the page with their owners, and fails exactly when the owner of a listed row cannot be determined. For plain keywords, or none, and no owner: page and number of the rows that contain every word, with id, title and owner; with an owner, in a sound registry and if none of these rows is stray: it succeeds with page and number of those among them the user owns, each with the user's id and wallet |
| Search.OwnerCondition | server/services/search.go:43-73 | the condition is the user with the set of articles the chain lists for the user's wallet, none without a wallet |
| Search.AddKeywords | server/services/search.go:74-79 | the clauses together select the rows that match every keyword |
| Search.OwnerOf | server/services/search.go:113-135 | the owner shown is the one the specification of an entry names, or the same failure |
| Search.ListEntries | server/services/search.go:107-146 | every listed row gets its entry, in order, or the call fails |
| Search.SelectAgain | server/services/search.go:74-79 | adding a keyword clause to a query is filtering its result |
| Invariants.RequestOnly | server/services/nfts.go:40-52 | advancing one request by a step it is entitled to keeps the whole invariant |
| Steps.TakeNonceKeeps | server/services/nfts.go:45-52 | taking a nonce and verifying over it keeps the invariant, also when verification fails |
| Steps.SendMintKeeps | server/services/nfts.go:76-87 | sending the mint keeps it: the mint is for the author and carries the author's signature |
| Steps.SaveFlagKeeps | server/services/nfts.go:107-112 | saving the flag keeps it: the flag is backed by upload and mint |
| Steps.CommitEditKeeps | server/services/articles.go:104-108 | committing an update or deletion keeps it |
| Steps.MineKeeps | blockchain/contracts/Knowtfolio.sol:39-53 | mining a pending mint, with any receiver behaviour or refusal, keeps it |
| Steps.NextKeeps | server/services/nfts.go:40-122 | every action keeps the invariant and takes nothing back |
| Safety.RunKeeps | server/services/nfts.go:57-119 | so does every run |
| Safety.StoresAreSound | server/gateways/aws/dynamodb.go:122-158 | in every run the contract is consistent, the registry is a bijection with nonces for exactly its users, and the two look-ups are inverse |
| Safety.TokenURILeadsToObject | infrastructure/function_scripts/appendDotJson.js:1-5 | in every run the rewritten token URI of a flagged article names an object that has been uploaded |
| Safety.FlagIsBacked | server/services/nfts.go:57-119 | in every run a flagged article has its metadata uploaded, and its token exists, is pending, or its mint was mined in vain |
| Safety.FlagMeansToken | server/services/nfts.go:57-119 | if recipients accept their mints, a flagged article has its token or a pending mint |
| Safety.FlagIsForever | server/services/articles.go:93-109 | while a row lives its flag never returns to false and its author never changes; deleted rows stay deleted |
| Safety.SearchTextIsCurrent | server/models/document.go:58-61 | in every run every row's search text is its present title, a newline and its present content without tags |
| Safety.KeywordFindsTitleOrContent | server/services/search.go:74-79 | in every run a one-line keyword without wildcards finds a row exactly if it occurs in the title or in the stripped content |
| Safety.TokenizingKeepsTheEditor | server/services/articles.go:145-170 | as long as the token was never transferred, the one possible editor is the author, and the author may edit except while the flag is set without a token |
| Safety.NoncesAreHandedOnce | server/gateways/aws/dynamodb.go:64-94 | in no run is a nonce handed to two requests |
| Safety.MintsAreAuthorised | server/services/nfts.go:41-84 | every mint ever sent rests on its recipient's signature over a nonce that no other mint rests on, and was asked for in EIP-55 form |
| Safety.StrayTokenWasMoved | server/services/search.go:67-72 | in a reachable state a stray row's token has been transferred |
| Safety.SearchIsExactUnlessMoved | server/services/search.go:43-73 | in every reachable state the registry is sound and the search by owner is exact, unless a token of an unflagged row was transferred; so `SearchForArticles` shows the owned rows |
| EditHistory.ClaimWasHeld | server/services/articles.go:148-157 | the account an edit rests on held the article's token while this very request, of this editor, was in flight and asking the chain |
| EditHistory.EditsAreTheOwners | server/services/articles.go:88-135 | in every run, each edit that took effect was made by the author of an untokenized article or by a user whose registered account held the token while that request was in flight, after its row was read |
| Scenarios.AloneIsARun | server/services/nfts.go:40-122 | a call without interleaving is a run of the protocol |
| Scenarios.WhoSigned | server/services/nfts.go:41-74 | the three look-ups and the string comparison together mean: the author signed the author's stored nonce |
| Scenarios.ChecksPassForTheAuthor | server/services/nfts.go:41-74 | a call by itself passes its checks exactly when the article's author made it |
| Scenarios.MintAloneOutcome | server/services/nfts.go:40-122 | it succeeds exactly if also every remote operation works; what was sent before a failure stays, only success changes a row, and the nonce of the user found by the address is spent in any case |
| Scenarios.EditAloneOutcome | server/services/articles.go:88-135 | an edit by itself takes effect exactly when the editor owns the article |
| Scenarios.HalfFailedMintMisleadsSearch | server/services/search.go:67-72 | from any state with a signed mint request there is a run after which the search by owner finds the article for the buyer, in every listing that has it, while its owner is the author |
| Scenarios.MisleadingRun | server/services/search.go:67-72 | such a run from the start, with two registrations and one article, for any account that signs its nonce |
| Scenarios.SearchCanBeMisled | server/services/search.go:67-72 | concrete library functions and a concrete run that ends there |
| Scenarios.OverwritingLosesTheFlag | server/services/articles.go:104-108 | writing back a stale row takes nothing back exactly if the row lives and its flag was not set since |
| Services.Backend.CreateArticle | server/services/articles.go:45-51 | an untokenized row of the given id, author, title and content, with their search text |
| Services.Backend.Read | server/services/articles.go:53-86 | the row and its owner; not found exactly for missing rows |
| Services.Backend.CheckEditor | server/services/articles.go:145-170 | decides as the specification of the edit check |
| Services.Backend.UpdateArticle | server/services/articles.go:88-116 | makes the protocol's edit steps and succeeds exactly when they do; then given fields replace the old ones, the search text is theirs, nothing else changes, and the new row is returned; a missing row is not found |
| Services.Backend.DeleteArticle | server/services/articles.go:118-135 | makes the protocol's deletion steps and succeeds exactly when they do; then exactly this row is gone and is returned; a missing row is not found |
| Services.Backend.Authenticate | server/services/nfts.go:41-52 | spends the nonce and passes exactly when the protocol's request is verified |
| Services.Backend.CreateForArticle | server/services/nfts.go:40-122 | makes the protocol's mint steps, with the same effects at every failure, and succeeds exactly when they do; then the returned mint, for the article and to the request's address, is the one sent, the metadata is uploaded, and only the flag of the row changes |
| AuthChallenge.DefineEvent.Handle | infrastructure/function_scripts/cmd/define_auth_challenge/main.go:13-40 | sets exactly the one response field the decision asks for, or fails |
| AuthChallenge.CreateEvent.Handle | infrastructure/function_scripts/cmd/create_auth_challenge/main.go:10-23 | shows the text over the nonce and keeps message and nonce, or changes nothing |
| AuthChallenge.VerifyEvent.Handle | infrastructure/function_scripts/cmd/verify_auth_challenge_response/main.go:14-34 | marks the answer correct exactly if the registered account signed the rebuilt text; a missing wallet or a too short signature ends the invocation |
| AuthChallenge.RankDecreases | infrastructure/function_scripts/cmd/define_auth_challenge/main.go:16-37 | every invocation lowers the rank until the run is over, and then changes nothing |
| AuthChallenge.OneChallengePerRun | infrastructure/function_scripts/cmd/define_auth_challenge/main.go:16-37 | at no two moments of a run is it about to create a challenge |
| AuthChallenge.RunsEnd | infrastructure/function_scripts/cmd/define_auth_challenge/main.go:13-40 | every run is over after four invocations |
| AuthChallenge.ShownTextIsChecked | infrastructure/function_scripts/cmd/create_auth_challenge/main.go:13-20 | the text shown to the user is the one rebuilt for the check |
| AuthChallenge.HowRunsEnd | infrastructure/function_scripts/cmd/define_auth_challenge/main.go:13-40 | a run ends signed in by a proof, refused for a missing wallet or a wrong answer, and in an error for an unreachable table, a failing random source, a wallet gone meanwhile or a panic |
| AuthChallenge.SignedInIffProved | infrastructure/function_scripts/cmd/verify_auth_challenge_response/main.go:14-34 | a run signs the user in exactly if the registered account signed the nonce created in that run |

## Left out

- ECDSA, Keccak, the EIP-191 text hash and the HTML sanitizers are unknown functions; what they compute is not modelled.
- Token identity checks, Cognito administration, the AWS SDK, SSM, the transport to S3 and the Ethereum RPC: only their effects on the modelled stores appear.
- GORM and MySQL internals: rows are a map by id and queries are filters over a fixed order of rows; collations that ignore letter case, and ties in the sort column, are not modelled.
- Rows whose `value` attribute is missing in DynamoDB, and transaction conflicts reported by DynamoDB, are not modelled.
- `allTokens` and the total supply of the enumeration extension: no Knowtfolio code reads them.
- Burning: no public function reaches it.
- The token counter's width of 256 bits: that many mints cannot happen.
- A revert of a receiver that undoes only its own calls is covered by leaving these calls out; a `mintNFT` call from inside a receiver is excluded, see above.
- The contents of the metadata object, HTML templates and server-side rendering, sign-up, password rules and form validation, logging, and the React client except for the sign text and the page count: they would only add easy members.
- Questions are designed in the API but not implemented.
- Terraform, Docker and deployment scripts.
- The OpenZeppelin contracts behind the EIP-721 calls are not part of this model's source; the calls follow the "Specification" section of EIP-721 and its enumeration extension.
