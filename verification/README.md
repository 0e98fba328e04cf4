# A verified model of ATF's delegation protocol and audit log

ATF lets one agent delegate a narrowly scoped, short-lived piece of work to another. The delegator
signs a token; the delegatee checks it, journals the start, runs a handler, and answers with a
signed outcome and a signed completion event; both sides keep the event in a local,
hash-chained log, cross-signed when the delegator's signature comes back. This project models
that stack from the bytes that are signed up to several agents on a hostile network, and proves
what it guarantees. `dafny verify dfyconfig.toml` checks all of it.

## How the model is laid out

| layer | modules | source |
|---|---|---|
| encodings | `Text`, `Json`, `Grammar`, `Canonical`, `Python`, `Dictionaries`, `Utf8`, `Base64Url`, `AgentUri` | `_b64.py`, `_signing.py`, `identity.py` |
| signatures | `Signing`, `Manifest`, `Outcome` | `_signing.py`, `manifest.py`, `outcome.py` |
| authority | `Scope`, `Delegation` | `delegation.py`, `manifest.py` |
| audit log | `AuditEvent`, `AuditTable`, `AuditLaws`, `ChainLaws`, and the class in `AuditLog` | `audit.py` |
| one agent | `Node`, `Effects`, `NodeLaws`, `Replay`, and the classes in `Agent` and `Wire` | `agent.py`, `wire.py` |
| many agents | `Network`, `NetworkLaws`, `Agreement`, `Issuance`, `Presentation`, `Cosigning`, `Settlement`, `Exchange` | `wire.py`, `audit.py`, `agent.py` |

Objects that the source updates in place are classes (`AuditLog.AuditLog`, `Agent.Agent`,
`Wire.Server`, `Wire.Client`), and what SQL or a loop does there is a loop here. Each of their
methods is proved against a function on values: `AuditTable` for the rows, `Node` for an agent.
The laws over whole runs are proved about those functions, and so is what each single operation
asks for and leaves behind: `Effects` reads that off the arguments, field by field and error by
error. A `Server` keeps the whole agent
invariant `NodeLaws.NodeValid` across its methods, and `Wire.ReceiveBesideServer` and
`Wire.IssueBesideServer` keep it when the same agent acts as client or issuer meanwhile. Laws
stated over runs of log operations apply to every agent's log, since each such log is the
outcome of one (`NetworkLaws.LogsAreRuns`).

The class `AuditLog` stores the record as text, as the table does; its values are read back
through the parser, so every law about the log holds of records that went through storage.

A server request is two atomic segments, before and after the handler's await; anything may
happen between them. `Node.Next` is one such segment, and `Network.Reach` a run of them over
several agents. The environment may deliver anything, any number of times, in any order, to
anyone, made up by anyone, except that it cannot show a signature by an honest agent's key
over bytes which that agent has not released (`Network.Known`).

## What is assumed

* `Signing.IdealSignatures`: a signature verifies under its maker's key for its message, and
  nowhere else. `Signing.IdealHash`: SHA-256 has no collisions and never yields the genesis
  value. Both are explicit hypotheses; `Signing.AssumptionsConsistent` shows they can hold together.
* uuid4 values are new: `Network.Enabled` asks it of event ids (`Network.FreshId`), and
  `Presentation.AcceptedExactly` of jtis (`Presentation.FreshJtis`). Clocks, uuids and handler
  results are inputs.
* A raising method commits nothing, and `event_id` is a primary key, which in SQLite may be NULL
  any number of times. Rows with NULL keys and one timestamp are taken to sort by insertion.
* Received content is kept as it comes: ids and jtis may be any JSON, `int()` and `dict()` convert
  (`Python`), and a TEXT column holds the numeral of a number it is given.

## Where the code falls short of a plain statement

* Replay protection works for a jti that is a JSON string, which `issue_token` always writes. A
  number is compared with the numbers in received records only, for a started record holds its text.
  `NodeLaws.ReplayVerdict` and `Replay.SecondPresentation` give the exact condition,
  `Replay.NumberedTokenRunsTwice` the tokens that run twice, and `Replay.NumberedYetReplay` those
  that never run. With honest registered keys no jti runs twice at all (`Issuance.RunsOnce`).
* First presentation does not suffice for acceptance. The client stores whatever event a
  registered peer signs, its type and jti unchecked (`wire.py:255-270`), and such a row counts as
  use (`agent.py:222-229`): `Replay.NeverBegunYetReplay` is a token nobody ever presented that is
  a replay at every time. A jti is used exactly if an execution began under it or such a row was
  received (`NodeLaws.UsedExactly`), which is the condition in `NodeLaws.IssuedAccepted`. With
  honest registered keys and fresh jtis the received row makes no difference, and
  `Presentation.AcceptedExactly` says which tokens are accepted in every reachable state.
* A signature's label is not among its signed bytes, and `append_finalized` does not compare it
  with the delegatee (`wire.py:255-270`, `audit.py:191-211`). A record with a mislabelled peer
  signature fails under the key map one would expect; `AuditLaws.LabelDecides` and
  `AuditLaws.VerifySignaturesMeans` give the exact conditions.
* A stored record without signatures passes third-party verification under every key map
  (`AuditLaws.UnsignedPasses`): the loop has nothing to check.
* On a network that recombines honest answers and cosigns, a settled row's cosigner holds the
  event but may hold it under a third party's signature: `Settlement.SettledBy` says exactly when,
  and `Settlement.Recombined` gives the two steps.
* Two honest logs may come to hold one event id with different content, and
  `Agreement.SplitExactly` says when: if and only if one of them registered a key that is no
  honest agent's. With honest registered keys logs agree throughout (`Agreement.LogsAgree`); and
  whoever takes part, they agree where a signature of one stands in the other
  (`NetworkLaws.SignedRowsAgree`).
* The chain is a tree. It is a line exactly when no insertion but the last came with a key below an
  earlier one: `ChainLaws.LinearExactly`. The module comment of `audit.py` says that the chain hash covers the
  stored record; after a finalization it covers the record as first inserted, which is what the
  code does and what `AuditLaws.Commits` says.
* Received event content survives being rebuilt only if it has exactly the seven keys, an integer
  for ts and a dictionary of fields: `AuditEvent.ContentOfFromContent`.
* An agent URI parses back exactly for owners without `/` or `#` and names without `#`:
  `AgentUri.ParsePrint`.

## Model

| member | source | states |
|---|---|---|
| Dictionaries.DumpsPrintsMeaning | reference/py/src/atf/_signing.py:33-42 | dumping a dictionary filled in any order, nested at any depth, gives the canonical text of the value it denotes, the text that module `Canonical` characterises |
| Dictionaries.DumpsCanonical | reference/py/src/atf/_signing.py:33-42 | two dumps are equal exactly when the dumped values are equal: canonical JSON is a canonical form |
| Dictionaries.InsertionOrderIrrelevant | reference/py/src/atf/_signing.py:33-42 | permuting the insertions that filled a dictionary changes neither meaning nor text |
| Canonical.ShortestText | reference/py/src/atf/_signing.py:40-42 | the printed form of a value is no longer than any text that loads to it; the ASCII form no longer than any in printable ASCII: no blanks, no needless and no long escapes |
| Canonical.CanonicalIsShortest | reference/py/src/atf/_signing.py:33-42 | the signed bytes decode to a text that loads to the value, and no way of writing the value is shorter |
| Canonical.StorageIsShortestAscii | reference/py/src/atf/audit.py:240-243 | the stored text is printable ASCII, loads to the value, and no such text is shorter |
| Canonical.CharText | reference/py/src/atf/_signing.py:40-42 | a character stands for itself unless it is a quote, a backslash, a control or, in the ASCII form, beyond the tilde; seven have two-character escapes and the rest lower-case hexadecimal ones that read back |
| Canonical.ContainerText | reference/py/src/atf/_signing.py:40-42 | a list is its items between commas, a dictionary its entries between commas under the one listing of its keys that ascends by code points |
| Text.LessMeans | reference/py/src/atf/_signing.py:40-42 | the order of keys: a proper beginning comes first, else the first differing character decides |
| Grammar.LoadsExactly | reference/py/src/atf/_signing.py:63-66 | a text loads to a value if and only if it is that value written out by the grammar of RFC 8259 with integers for numbers, under any blanks and escapes, the last of repeated keys standing |
| Json.LoadsPrint | reference/py/src/atf/audit.py:231 | loading undoes dumping, in the UTF-8 form and in the ASCII form with surrogate pairs |
| Json.ParsePrint | reference/py/src/atf/_signing.py:40-42 | the parser reads any printed value back and leaves exactly the text after it |
| Utf8.DecodeEncode | reference/py/src/atf/_signing.py:40-42 | decoding undoes UTF-8 encoding for all text over Unicode scalar values |
| Utf8.StandardExamples | reference/py/src/atf/_signing.py:40-42 | characters of each length have the bytes that section 7 of RFC 3629 gives them |
| Signing.CanonicalInjective | reference/py/src/atf/_signing.py:33-42 | distinct values have distinct canonical bytes |
| Signing.StorageKeepsCanonical | reference/py/src/atf/audit.py:231-243 | a record read back from `record_json` has the canonical bytes it was signed with |
| Base64Url.DecodeEncode | reference/py/src/atf/_b64.py:6-12 | the permissive decoder undoes the encoder for every byte string, with `-len % 4` restoring what was stripped |
| Base64Url.EncodeShape | reference/py/src/atf/_b64.py:6-7 | stripping removes exactly the padding that the decoder's arithmetic puts back, and the output stays in the URL alphabet |
| Base64Url.EncodeInjective | reference/py/src/atf/_b64.py:6-12 | distinct byte strings have distinct encodings |
| Base64Url.EncodeDigits | reference/py/src/atf/_b64.py:6-7 | three bytes become the four base-64 digits of one number, two left over become three digits and one becomes two, for every position of every byte string |
| Base64Url.Alphabet | reference/py/src/atf/_b64.py:6-7 | the digits are capitals, small letters, figures, hyphen and underscore, each run in order, and each reads back |
| Base64Url.ScanIgnores | reference/py/src/atf/_b64.py:10-12 | a character outside the alphabet is read over wherever it stands |
| Signing.EnvelopeExact | reference/py/src/atf/_signing.py:75-101 | an envelope verifies for exactly the content it was made over and exactly its maker's key |
| Effects.VerifyMeans | reference/py/src/atf/_signing.py:92-101 | an envelope verifies if and only if it names Ed25519 and carries bytes that verify over the canonical content |
| Signing.CompactRoundTrip | reference/py/src/atf/_signing.py:45-72 | verifying a signed token returns the header and payload that went in |
| Effects.CompactPayload | reference/py/src/atf/_signing.py:56-72 | a token that verifies names Ed25519, carries the payload that peeking reads, and its signature covers both parts |
| Effects.CompactKey | reference/py/src/atf/_signing.py:45-72 | a signed token verifies under its maker's key and no other |
| Signing.SigningInputInjective | reference/py/src/atf/_signing.py:49-53 | what is signed as a token determines header and payload |
| Signing.AcceptedPayload | reference/py/src/atf/_signing.py:56-72 | a token accepted over bytes signed as a token carries that token's payload |
| Signing.DomainsDisjoint | reference/py/src/atf/_signing.py:45-89 | bytes signed as a token are never the canonical bytes of an object |
| AgentUri.ParsePrint | reference/py/src/atf/identity.py:35-36 | parsing a printed URI returns its parts if and only if the owner has no `/` or `#` and the name no `#` |
| AgentUri.PrintParse | reference/py/src/atf/identity.py:117-129 | whatever parses prints back to the same text |
| AgentUri.PrintInjective | reference/py/src/atf/identity.py:35-36 | well-formed parts give collision-free URIs |
| Scope.MatchIsUnder | reference/py/src/atf/delegation.py:160-168 | the string-prefix test is the prefix order on dot-split segments, for all strings |
| Scope.UnderPartialOrder | reference/py/src/atf/delegation.py:160-168 | that order is reflexive, antisymmetric and transitive |
| Scope.CoversMeans | reference/py/src/atf/delegation.py:160-168 | a token's scopes cover a capability exactly when some scope is above it |
| Scope.ScanMeans | reference/py/src/atf/manifest.py:77-91 | the manifest scan finds a capability exactly when a readable run of declarations ends in one above it |
| Scope.AuthorityComposes | reference/py/src/atf/delegation.py:133-144 | the two separately written matchers compose: the manifest itself has whatever its covered scopes cover |
| Manifest.ManifestRoundTrip | reference/py/src/atf/manifest.py:54-74 | a signed manifest verifies under its author's key alone and comes back unchanged |
| Delegation.IssueVerify | reference/py/src/atf/delegation.py:69-157 | an issued token is accepted if and only if it is inside its window, named for the verifier, covers the scope and delegates what the manifest declares; and it yields exactly the issued claims |
| Effects.IssuedVerdict | reference/py/src/atf/delegation.py:116-157 | the verdict on an issued token for every key, subject, scope, manifest and clock, with the error of the first check that fails |
| Delegation.AcceptedAuthority | reference/py/src/atf/delegation.py:102-157 | any accepted token lies inside its window and below the registered manifest's own authority |
| Outcome.OutcomeExact | reference/py/src/atf/outcome.py:52-96 | a signed outcome is accepted exactly under its signer's key and for its own schema, with the error the source raises otherwise |
| Effects.OutcomeMeans | reference/py/src/atf/outcome.py:58-96 | an outcome envelope is accepted if and only if it is signed under the key, complete, of the expected schema and true to its payload's hash; it is an invalid signature exactly if it is not signed under the key |
| Outcome.HashBindsPayload | reference/py/src/atf/outcome.py:83-94 | accepted outcomes with equal payload hashes have equal payloads |
| AuditEvent.FromContentOfContent | reference/py/src/atf/audit.py:77-98 | rebuilding an event from its content gives the event |
| AuditEvent.ContentInjective | reference/py/src/atf/audit.py:77-86 | content determines the event |
| AuditEvent.ContentOfFromContent | reference/py/src/atf/audit.py:88-98 | received content survives rebuilding if and only if it has exactly the seven keys, an integer for ts and a dictionary of fields; all other accepted content is converted or cut down |
| Python.IntOfNumeral | reference/py/src/atf/audit.py:97 | the conversion `int` undoes `str` on every integer |
| AuditLaws.RunValid | reference/py/src/atf/audit.py:166-271 | in every reachable log keys that are not NULL are distinct, each row is chained to the head of its time over the record as first inserted, columns hold the stored fields with numbers as numerals, and the stored record extends the inserted one by at most one signature |
| AuditLaws.FinalizeShape | reference/py/src/atf/audit.py:213-244 | finalizing changes one row's signatures and pending mark and no hash, id, timestamp or content, so no later link breaks |
| AuditLaws.StepGrows | reference/py/src/atf/audit.py:109-110 | no operation removes a row or changes its content, and signatures only extend |
| AuditLaws.StepPhase | reference/py/src/atf/audit.py:182-271 | one operation moves one event from absent to pending, absent to final or pending to final, and a raising one changes nothing |
| AuditLaws.FinalizedOnce | reference/py/src/atf/audit.py:213-244 | in every run an event is finalized successfully at most once and stays settled |
| AuditLaws.FinalizeTwice | reference/py/src/atf/audit.py:227-230 | a finalized event is refused as not pending, whatever signature and key come next |
| Effects.FinalizeRefused | reference/py/src/atf/audit.py:213-235 | a finalization fails as not found, not pending or wrongly signed exactly for an absent event, a settled one, and a pending one over which the signature does not stand |
| AuditLaws.PendingCountBalances | reference/py/src/atf/audit.py:157-162 | the pending count is successful `append_pending` calls minus successful `finalize_pending` calls |
| AuditLaws.ReplayExact | reference/py/src/atf/agent.py:220-230 | the indexed pre-filter and the scan together decide exactly whether a started or completed record carries this jti, as the same text or as the same number |
| AuditLaws.NewestIsGreatest | reference/py/src/atf/audit.py:129-134 | no row has a (ts, event_id) key above the head's |
| AuditLaws.HeadIsLastEvent | reference/py/src/atf/audit.py:129-155 | `all_events` lists each row once in ascending key order and ends in the row whose hash is `latest_hash` |
| AuditLaws.HeadInTime | reference/py/src/atf/audit.py:129-155 | no row is later than the head, of rows as late none has a greater id, and the listing runs forward in time |
| AuditTable.GenesisText | reference/py/src/atf/audit.py:59 | the genesis hash is the prefix and sixty-four zeros |
| AuditLaws.ThirdPartyExact | reference/py/src/atf/audit.py:274-294 | after any run, whatever else was refused or stored in it, a record passes third-party verification under every key map that fits the labels on that record, and its signatures over any other content fail it |
| AuditLaws.LabelDecides | reference/py/src/atf/audit.py:191-211 | a verifying peer signature is stored whatever its label says, and the record verifies if and only if the key map sends that label to the peer's key |
| AuditLaws.VerifySignaturesMeans | reference/py/src/atf/audit.py:285-294 | the loop succeeds exactly when every signature is by a known signer and verifies |
| AuditLaws.FirstFailure | reference/py/src/atf/audit.py:285-294 | the first signature that does not hold decides, by an unknown signer or by failing under the signer's key |
| AuditLaws.UnsignedPasses | reference/py/src/atf/audit.py:284-285 | a record that carries no signatures passes under every key map |
| ChainLaws.ChainHashInjective | reference/py/src/atf/audit.py:101-106 | a chain hash determines previous hash and record: the hashed bytes split in one way |
| ChainLaws.HashDetermines | reference/py/src/atf/audit.py:248-271 | equal chain hashes, in one log or two, mean equal inserted records and equal predecessors |
| ChainLaws.WalkFromHead | reference/py/src/atf/audit.py:129-134 | following the links from the head always ends at genesis |
| ChainLaws.WalksAgree | reference/py/src/atf/audit.py:248-271 | two walks from one hash meet the same records, whichever logs they are taken in |
| ChainLaws.TamperEvidence | reference/py/src/atf/audit.py:101-134 | any two linked logs with one head agree on the whole ancestor sequence of inserted records |
| ChainLaws.TreeShape | reference/py/src/atf/audit.py:248-271 | only the first row hangs off genesis and every other off an earlier row |
| ChainLaws.LinearExactly | reference/py/src/atf/audit.py:129-134 | no two rows share a predecessor if and only if no row but the last came with a key below an earlier one |
| AuditLog.AuditLog.constructor | reference/py/src/atf/audit.py:112-116 | opening a file, new or with rows a log wrote, gives a valid log of exactly those rows |
| AuditLog.AuditLog.LatestHash | reference/py/src/atf/audit.py:129-134 | the scan returns the chain hash of the row with the greatest key, or genesis |
| AuditLog.AuditLog.HasJti | reference/py/src/atf/audit.py:136-141 | the column lookup finds a jti exactly when some row carries its text or numeral, and raises for what cannot be bound |
| AuditLog.AuditLog.Get | reference/py/src/atf/audit.py:143-148 | the stored record of an event, parsed, or none for an unknown id |
| AuditLog.AuditLog.SelectOrdered | reference/py/src/atf/audit.py:150-154 | sorting the stored rows by key is sorting their values by key |
| AuditLog.AuditLog.AllEvents | reference/py/src/atf/audit.py:150-155 | the parsed records in ascending key order |
| AuditLog.AuditLog.PendingPeerCount | reference/py/src/atf/audit.py:157-162 | the number of rows awaiting a peer |
| AuditLog.AuditLog.Insert | reference/py/src/atf/audit.py:248-271 | one row chained to the head is added, or a parameter that cannot be stored or a repeated key raises and changes nothing; validity is kept |
| AuditLog.AuditLog.AppendSelf | reference/py/src/atf/audit.py:166-173 | the new row holds the event under the agent's own signature, or nothing changes; validity is kept |
| AuditLog.AuditLog.SignOnly | reference/py/src/atf/audit.py:177-180 | the signature verifies for exactly the event's content and exactly the signer's key, and nothing is stored |
| AuditLog.AuditLog.AppendPending | reference/py/src/atf/audit.py:182-189 | the new row holds the event under one signature and awaits its peer, or nothing changes; validity is kept |
| AuditLog.AuditLog.AppendFinalized | reference/py/src/atf/audit.py:191-211 | the new row holds both signatures, only if the peer's verifies; otherwise nothing changes; validity is kept |
| AuditLog.AuditLog.ExistingSigners | reference/py/src/atf/audit.py:237 | the labels of all signatures, or failure if one has no usable label |
| AuditLog.AuditLog.FinalizePending | reference/py/src/atf/audit.py:213-244 | exactly the named pending row is settled under a verifying peer signature, appended unless its label is present; each failure raises its own error and changes nothing; validity is kept through storage |
| Agent.ScanAgrees | reference/py/src/atf/agent.py:225-229 | scanning the listed events finds a use exactly when a row is one |
| Agent.PeekIssuedJti | reference/py/src/atf/agent.py:186-189 | the jti decoded from a token just issued is the one issued |
| Agent.Agent.PublishManifest | reference/py/src/atf/agent.py:90-111 | the agent's manifest becomes the signed one returned, naming bare capabilities in full |
| Agent.Agent.RegisterPeer | reference/py/src/atf/agent.py:118-144 | the object takes the step that `Effects.RegisterExactly` describes: a peer is recorded with its verified manifest only if signature and name fit; otherwise nothing changes |
| Agent.Agent.IssueDelegation | reference/py/src/atf/agent.py:154-201 | the step of `Effects.IssueExactly`: a token is returned and its issue journaled, only for declared scopes and a lawful lifetime; otherwise nothing changes |
| Agent.Agent.SeenBefore | reference/py/src/atf/agent.py:220-230 | the two-stage lookup decides the replay test, and raises for a jti that cannot be bound |
| Agent.Agent.VerifyDelegation | reference/py/src/atf/agent.py:203-252 | the step of `Effects.ReplayLeavesEvidence` and `NodeLaws.AcceptedFacts`: the verdict, and the one row of evidence left by a replay |
| Wire.CompletionFromEnvelope | reference/py/src/atf/agent.py:290-310 | the completion event read off a signed outcome carries that outcome's hash, status and schema |
| Wire.Server.InvokeBegin | reference/py/src/atf/wire.py:73-111 | verification and the started row are one atomic step of the specification, and the agent invariant is kept |
| Wire.Server.InvokeFinish | reference/py/src/atf/wire.py:113-148 | the signed outcome, the pending row and the answer are one atomic step of the specification, and the agent invariant is kept |
| Wire.Server.AuditCosign | reference/py/src/atf/wire.py:150-166 | a cosign settles the named row under the label's registered key, or raises and changes nothing |
| Wire.Server.AuditEvents | reference/py/src/atf/wire.py:168-170 | the served records are the log's in key order |
| Wire.Client.Receive | reference/py/src/atf/wire.py:232-280 | the step of `Effects.ReceiveExactly`: a good answer is stored finalized with its fields as they came and yields the signature to push, a bad outcome signature leaves a dispute row, anything else changes nothing |
| Wire.ReceiveBesideServer | reference/py/src/atf/wire.py:198-282 | a client call on the agent of a running server is one step of that agent, and the server's invariant is kept |
| Wire.IssueBesideServer | reference/py/src/atf/agent.py:154-201 | issuing from the agent of a running server is one step of that agent, and the server's invariant is kept |
| Wire.RegisterBesideServer | reference/py/src/atf/agent.py:118-144 | registering a peer with the agent of a running server is one step of that agent, and the server's invariant is kept |
| Wire.PublishBesideServer | reference/py/src/atf/agent.py:90-111 | so for publishing a manifest |
| Effects.PublishMeans | reference/py/src/atf/agent.py:90-111 | a published manifest names the agent, lists every capability given in order, has exactly the capabilities under those, and stands under the agent's key alone |
| Effects.RegisterExactly | reference/py/src/atf/agent.py:118-144 | registering succeeds if and only if the envelope's manifest names the agent and its signature stands over it under the given key; that manifest is recorded, all other peers and the log stay |
| Effects.RegisterPublished | reference/py/src/atf/agent.py:118-144 | a published manifest registers if and only if id and key are its author's |
| Effects.IssueExactly | reference/py/src/atf/agent.py:154-201 | a token is issued if and only if the lifetime is at most a day and the agent's manifest, if any, has each scope; its payload is the arguments claim by claim, constraints and audit address included, it verifies under the issuer's key, and the issue is journaled with scope and purpose |
| Effects.AcceptedAsIssued | reference/py/src/atf/agent.py:154-252 | whoever accepts an issued token gets back each argument of the issue, at a time in the window |
| Effects.ReplayLeavesEvidence | reference/py/src/atf/agent.py:220-243 | a token whose jti is used is refused as a replay and adds exactly one signed `delegation.replay_attempt` row with its jti, named issuer and this agent; any other verdict changes nothing |
| Effects.BeginExactly | reference/py/src/atf/wire.py:73-111 | an invocation begins if and only if it has a token, a known action and a token that passes for the action's capability; it adds exactly one signed started row, and every refusal leaves what verifying left |
| Effects.FinishExactly | reference/py/src/atf/wire.py:113-148 | the answer's outcome holds the handler's result or exception with status, hash, schema, time and reason, the event binds it, both are signed under the agent's key, and exactly that event is added as a pending row |
| Effects.ReceiveExactly | reference/py/src/atf/wire.py:232-280 | for every response: success if and only if the peer is known, the outcome stands under its key and the event does, and then one row with both signatures; an outcome not signed under that key leaves exactly one signed `delegation.disputed` row with jti, parties and reason; every other failure changes nothing |
| Effects.CosignExactly | reference/py/src/atf/wire.py:150-166 | a cosign is taken if and only if its label is a registered peer whose key verifies it over a row awaiting one; that row alone changes, by the signature and the pending mark |
| Effects.GainedUses | reference/py/src/atf/agent.py:222-229 | a new row uses up the jti it carries, and only if its type is started or completed |
| Effects.CrashStops | reference/py/src/atf/wire.py:100-118 | a crash ends the running executions and leaves the log and all else |
| NodeLaws.AcceptedFacts | reference/py/src/atf/agent.py:203-252 | what every accepted delegation has passed: known issuer, this agent, window, no replay, token verification |
| NodeLaws.AcceptedAuthorityOfPeer | reference/py/src/atf/agent.py:245-252 | an accepted delegation's required capability lies under one the delegator's registered manifest declares |
| NodeLaws.RunKeeps | reference/py/src/atf/wire.py:72-166 | the agent invariant holds after every history of requests, handlers, cosigns, client calls and crashes |
| NodeLaws.ExecutedAtMostOnce | reference/py/src/atf/wire.py:85-118 | over every interleaving no two executions share a jti, unless the later token's jti was not text |
| NodeLaws.WorkConserved | reference/py/src/atf/wire.py:100-141 | started rows equal running plus crashed executions plus completion rows |
| NodeLaws.CompletionHasStart | reference/py/src/atf/wire.py:100-141 | each completion row has exactly one earlier started row, for the same jti and delegator |
| NodeLaws.StartCompletesOnce | reference/py/src/atf/wire.py:128-141 | a started row is completed by at most one completion row |
| NodeLaws.VerdictDepends | reference/py/src/atf/agent.py:203-252 | the verdict on a token depends on the log only through the set of used jtis, texts and numbers |
| NodeLaws.RejectionNeutral | reference/py/src/atf/wire.py:85-98 | a rejected invocation adds at most one replay row and uses up no jti |
| NodeLaws.RejectionsConsumeNothing | reference/py/src/atf/wire.py:85-98 | after any number of rejected invocations every token gets the verdict it would have got at once |
| NodeLaws.ReplayVerdict | reference/py/src/atf/agent.py:218-243 | a token from a known peer is a replay if and only if a started or completed record carries its jti, as the same text or the same number |
| NodeLaws.UsedExactly | reference/py/src/atf/agent.py:218-230 | a jti counts as used if and only if it is text and the agent began an execution under it, or the agent holds a received event that says so |
| NodeLaws.RunUsedExactly | reference/py/src/atf/agent.py:218-230 | the same after every history of an agent |
| NodeLaws.IssuedAccepted | reference/py/src/atf/agent.py:154-252 | an issued token under whose jti its delegatee began no execution is accepted for a covered scope if and only if the clock is inside its window and no received event has used up the jti; and then yields exactly the issued claims |
| Replay.SecondPresentation | reference/py/src/atf/agent.py:218-252 | after any later history an accepted token is a replay for ever if its jti is text, a replay if a received event uses the number it has for a jti, and is judged afresh otherwise |
| Replay.NumberedTokenRunsTwice | reference/py/src/atf/agent.py:221-230 | a token with a number for a jti runs if and only if no received event uses that number, and if it runs it runs again under the same jti |
| Replay.ReceivedRowUses | reference/py/src/atf/wire.py:255-270 | receiving a registered peer's event of type completed, with a text or a number for its jti, begins nothing and leaves that jti used |
| Replay.NeverBegunYetReplay | reference/py/src/atf/agent.py:218-243 | after one such event a token that was never presented is a replay at every time |
| Replay.NumberedYetReplay | reference/py/src/atf/agent.py:218-243 | after a received event with a number for its jti, a token with that number is a replay at every time though it was never presented |
| NetworkLaws.SignedIsStored | reference/py/src/atf/wire.py:136-148 | one step releases a signature over event content only if its log then holds that content |
| NetworkLaws.ReachValid | reference/py/src/atf/wire.py:72-282 | every reachable system keeps all agent invariants, store before release, and the origin of every stored signature |
| NetworkLaws.LogsAreRuns | reference/py/src/atf/audit.py:166-271 | every agent's log in every reachable system is the outcome of a run of log operations |
| NetworkLaws.SignatureImpliesPossession | reference/py/src/atf/audit.py:166-244 | wherever a row shows a signature valid under an honest agent's key, that agent's own log holds exactly that content |
| NetworkLaws.SignedRowsAgree | reference/py/src/atf/audit.py:191-244 | a row signed by an honest agent and that agent's row of the same event id have equal content, whoever else takes part |
| Agreement.LogsAgree | reference/py/src/atf/wire.py:255-270 | with honest registered keys, an event id held by two logs has the same content in both, in every reachable state |
| Agreement.DishonestPeerSplits | reference/py/src/atf/audit.py:191-211 | one dishonest registered key suffices to make two honest logs differ on an event id in one step |
| Agreement.SplitExactly | reference/py/src/atf/wire.py:255-270 | while logs agree, some delivery can make an agent hold an event of another honest log with other content if and only if one of its registered keys is no honest agent's |
| Issuance.DocumentIsNoHeader | reference/py/src/atf/_signing.py:56-66 | no manifest, outcome or event text can be taken for a token: its start does not decode to a header |
| Issuance.AcceptedWasIssued | reference/py/src/atf/agent.py:185-252 | in every reachable state a token accepted under an honest agent's key was issued by that agent to this delegatee, as its log records |
| Issuance.WorkWasDelegated | reference/py/src/atf/wire.py:85-118 | with honest registered keys every execution ever begun was delegated by its named issuer, on whose log the issue stands |
| Issuance.RunsOnce | reference/py/src/atf/wire.py:85-118 | with honest registered keys no two executions of an agent share a jti, in every reachable state |
| Presentation.UsedMeansBegun | reference/py/src/atf/agent.py:218-230 | with honest registered keys and fresh jtis, the delegatee of an issued token finds its jti used exactly if it began an execution under it |
| Presentation.AcceptedExactly | reference/py/src/atf/agent.py:203-252 | with honest registered keys and fresh jtis, in every reachable state a token that was sent is accepted if and only if the verifier is its delegatee, knows the issuer under its key with a manifest declaring the scope, the capability is covered, the clock is in the window and no execution was begun under the jti; and then yields the issued claims |
| Cosigning.SettledRowsMeet | reference/py/src/atf/audit.py:213-244 | on a network that delivers only what was sent, a settled completion row has a twin in another agent's log: same content, the same two verifying signatures in opposite order |
| Cosigning.CosignDelivery | reference/py/src/atf/wire.py:150-166 | a pushed cosign is accepted if and only if the event still awaits its peer and the sender is registered under its own key; coming again it is refused and changes nothing |
| Cosigning.DeliveryEnabled | reference/py/src/atf/wire.py:143-148 | whatever honest agents sent may be delivered: the limit on the environment never stops it |
| Settlement.SettledBy | reference/py/src/atf/audit.py:213-244 | on the hostile network, a row settled by a signature valid under another honest agent's key stands opposite a received row of that agent with the same content; the two carry the same signers if the cosigner took the event under the delegatee's key, and for a signature a key pair made only then |
| Settlement.Recombined | reference/py/src/atf/wire.py:150-166 | two steps the hostile network may take, a third agent's released signature handed on as its answer and the receiver's push, settle a row whose opposite carries another pair of signatures |
| Exchange.AnswerBindsOutcome | reference/py/src/atf/wire.py:113-148 | the answer says what the handler did, and its event binds that by hash, jti, status, schema and type |
| Exchange.AnswerAccepted | reference/py/src/atf/wire.py:232-270 | a client accepts an honest answer if and only if it knows the answerer's key, expects no other schema and does not hold the event |
| Exchange.ExchangeSucceeds | reference/py/src/atf/wire.py:3-12 | the whole exchange goes through for parties that know each other and a covered scope in the window, and leaves twin rows with nothing pending |

## Left out

- HTTP, FastAPI and httpx, status codes and headers: the model has the steps and messages they carry.
- Ed25519, SHA-256, PEM and JWK import: replaced by the stated assumptions on an abstract `Crypto` record.
- SQLite itself: rows are a sequence with commit on success, a primary key and typed binding; several processes on one file are not modelled.
- Floating-point numbers and non-string dictionary keys in JSON, lone surrogates in text, and input in UTF-16 or UTF-32: the JSON here has integers, string keys and Unicode scalar values.
- Corners of Python's conversions: `str()` of a list or dictionary, `int()` of text with digits or blanks beyond ASCII, `dict()` of a list holding dictionaries, and a dictionary in place of a list of scopes raise in the model. Limits on the length of numerals are not modelled.
- Python counts the signer labels `True` and `1` as one when `finalize_pending` looks for a duplicate; the model keeps them apart. Labels the code writes are text.
- `register_peer` takes the public key; importing it from a JWK is the foreign code named above.
- Command line, demo, logging, `Agent.create`, loading a manifest from disk, `fetch_jwks` and `fetch_manifest`: input and output only.
- Features of the design document without code: key revocation, retries of orphaned completions, witnesses, payload hashes in tokens, refused outcomes, and disputes over schemas. The code records a dispute only for an invalid outcome signature.
- What a handler computes: its result is an arbitrary value or exception.
- The bookkeeping of coroutines is ghost state of `Wire.Server`, since the source keeps it in the event loop; a crash is modelled on values (`Node.Crash`) and not as a method.
- The laws over many agents are about `Node` values and not about several `Server` objects: concurrent access to one agent's objects is the interleaving of their atomic methods.
- Unhandled exceptions keep the error kind only as far as callers can tell it apart: malformed input of several kinds shares one error of the model.
