# Runes and credentials of the Greenlight client, in Dafny

This project models two parts of the Greenlight client library.

The first part is rune attenuation (`libs/gl-client/src/runes.rs`). A rune is an authentication code plus a list of restrictions. Each restriction is a disjunction of alternatives. An alternative tests one field of a call's context with a condition. The module covers these pieces:

- The predefined policies `DefRules` (`ReadOnly`, `Pay`, `Add`) and the restrictions they generate.
- Their display tags.
- `RuneFactory::carve`, which derives a narrower rune from an existing one.
- The call `Context`, which resolves the fields that alternatives name.

The rune library underneath is `runeauth`. Its definitions are not part of the repository, so module `RuneAuth` gives them the meaning the repository's tests rely on:

- conditions `=`, `^` and `!`;
- restrictions that must be non-empty;
- the textual encoding with `|` between alternatives and `&` between restrictions;
- a symbolic authentication-code chain.

The second part is the Python-facing credentials (`libs/gl-client-py/src/credentials.rs`). A credential is either `Nobody`, the anonymous identity used before a node is registered, or `Device`, which is bound to a node. The module models:

- the identity guards;
- the delegating accessors;
- the constructors;
- `upgrade`, `to_bytes` and `with_ca`.

The model is in these files:

- `results.dfy`: the `Result` and `Option` types.
- `runeauth.dfy`: conditions, alternatives, restrictions and runes; the encoding and decoding of restriction text; the code chain and `is_authorized`.
- `runes.dfy`: policies, `Generate`, `Carve`, `Display`, `Context`, field resolution and restriction checking.
- `rune_examples.dfy`: the repository's rune tests, stated as lemmas.
- `credentials.dfy`: `UnifiedCredentials`, `Credentials`, `upgrade`, `to_bytes` and `with_ca`.

`carve` and `generate` change local state step by step in the source. They are modelled that way too: `Runes.Carve` and `Runes.Generate` are methods with loops, and each is proved against a specification function (`Carved` and `Generated`). A rune is modelled as a value. `carve` clones it and updates the clone, so the original is never changed.

`Credentials::node_id` (credentials.rs:170-172) calls the inner accessor without a guard, and that accessor panics on `Nobody` (credentials.rs:82-84). The model turns the panic into a precondition of `Credentials.Credentials.NodeId`.

## Model

| member | source | states |
|---|---|---|
| RuneAuth.ConditionHolds | libs/gl-client/src/runes.rs:198 | No contract of its own: the meaning of `Equal` (equality), `BeginsWith` (prefix) and `Missing` (empty value). `RuneAuth.CheckValue`, `Runes.ReadOnlyAllows` and `Runes.PayAllows` state what it admits. |
| RuneAuth.CheckValue | libs/gl-client/src/runes.rs:198 | The condition checker accepts exactly when the condition holds for the resolved value. On failure it reports the field and the value it saw. |
| RuneAuth.NewRestriction | libs/gl-client/src/runes.rs:109 | `Restriction::new` succeeds exactly on a non-empty list of alternatives and keeps them in order. Otherwise it fails with the empty-restriction error. |
| RuneAuth.Rune.AddRestriction | libs/gl-client/src/runes.rs:49 | `add_restriction` appends the restriction. It then continues the authentication code over the restriction's text. |
| RuneAuth.AddRestrictions | libs/gl-client/src/runes.rs:46-50 | No contract of its own: the `for_each` of `add_restriction` over the restrictions, in order. `RuneAuth.AddRestrictionsShape` states its result. |
| RuneAuth.AddRestrictionsShape | libs/gl-client/src/runes.rs:45-50 | Adding restrictions one by one keeps the old restrictions in place and appends the new ones in order. The code becomes the chain over the new ones. |
| RuneAuth.ChainAppend | libs/gl-client/src/runes.rs:46-50 | Chaining over `a + b` is chaining over `a`, then over `b`. |
| RuneAuth.MasterRune | libs/gl-client/src/runes.rs:212 | No contract of its own: `new_master_rune`, the seed code with the given restrictions added. `RuneAuth.MasterAuthorizesItself` and `RuneExamples.MasterWithOne` state its properties. |
| RuneAuth.NewRune | libs/gl-client/src/runes.rs:259-272 | No contract of its own: `Rune::new`, the given code with the given restrictions added. `RuneAuth.DerivedIsAuthorized` and `Runes.SingleAlternativeRune` state its properties. |
| RuneAuth.IsAuthorized | libs/gl-client/src/runes.rs:222 | No contract of its own: the rune's code is the master's seed code chained over the rune's restrictions. `RuneAuth.MasterAuthorizesItself`, `RuneAuth.DerivedIsAuthorized`, `RuneAuth.AuthorizedAfterAdding` and `Runes.CarveKeepsLineage` state its properties. |
| RuneAuth.DerivedIsAuthorized | libs/gl-client/src/runes.rs:256-272 | A rune built with `Rune::new` from the code of an unrestricted master (as r1 to r4 are built from `mr`) is authorized by that master. |
| RuneAuth.RootOfChain | libs/gl-client/src/runes.rs:46-50 | Adding restrictions never changes the seed a rune's code started from. |
| RuneAuth.MasterAuthorizesItself | libs/gl-client/src/runes.rs:212 | A master rune made by `new_master_rune` authorizes itself, whatever restrictions it was created with. |
| RuneAuth.AuthorizedAfterAdding | libs/gl-client/src/runes.rs:222 | Adding restrictions to a rune the master authorizes keeps it authorized. |
| RuneAuth.JoinAppend | libs/gl-client/src/runes.rs:104-106 | Joining two non-empty lists gives the two joins with one separator between them. |
| RuneAuth.RestrictionTextAppend | libs/gl-client/src/runes.rs:66-67 | A restriction made of the alternatives of two restrictions is encoded as their two encodings joined by a bar. |
| RuneAuth.EncodeRestrictionListAppend | libs/gl-client/src/runes.rs:46-52 | Appending restrictions only appends text. The old encoding is kept, followed by an ampersand and the new part. Either side may be empty. |
| RuneAuth.SplitJoin | libs/gl-client/src/runes.rs:221 | For a non-empty list of parts, none holding the separator, splitting at the separator undoes joining with it. |
| RuneAuth.DecodeAlternative | libs/gl-client/src/runes.rs:221 | Parsing an alternative fails exactly when its text holds no condition symbol. |
| RuneAuth.DecodeEncodeRestriction | libs/gl-client/src/runes.rs:221 | An encodable restriction decodes back to itself. Its text is non-empty and holds no `&`. |
| RuneAuth.Encode | libs/gl-client/src/runes.rs:52 | No contract of its own: `to_base64` without the base64 layer, the code and the restriction text. `RuneAuth.EncodeRestrictionListAppend`, `Runes.CarvedText` and `RuneAuth.DecodeEncode` state its properties. |
| RuneAuth.Decode | libs/gl-client/src/runes.rs:221 | No contract of its own: `from_base64` without the base64 layer, parsing the restriction text. `RuneAuth.DecodeEncode` and `Runes.CarvedDecodes` state that it inverts `Encode`. |
| RuneAuth.DecodeEncode | libs/gl-client/src/runes.rs:52 | Decoding an encoded rune gives the same rune back, when every restriction can be encoded. This is the `to_base64` / `from_base64` round trip without the base64 layer. |
| Runes.MakeAlternative | libs/gl-client/src/runes.rs:152-154 | The shorthand builds the alternative of the given field, condition and value, always case-sensitive. The encoding can carry it exactly when the field and value hold no separator. |
| Runes.Generated | libs/gl-client/src/runes.rs:78-113 | A policy that generates yields exactly one restriction, and the encoding can carry it. |
| Runes.AddAlternatives | libs/gl-client/src/runes.rs:97-108 | The fold of `Add` yields only alternatives the encoding can carry. |
| Runes.Generate | libs/gl-client/src/runes.rs:78-113 | The loop that builds the alternative list computes exactly `Generated`, including the first sub-policy error and the empty-restriction error. |
| Runes.GeneratedAll | libs/gl-client/src/runes.rs:39-43 | No contract of its own: carve's `try_fold`, every policy's restrictions in policy order with the first error winning. `Runes.GeneratedAllShape`, `Runes.GeneratedAllOkIff`, `Runes.GeneratedAllErrorIsFirst` and `Runes.FirstErrorIsGeneratedAllError` state its meaning. |
| Runes.Carved | libs/gl-client/src/runes.rs:38-52 | No contract of its own: the rune `carve` encodes. `Runes.CarvedShape`, `Runes.CarvedOkIff`, `Runes.CarvedFirstError` and `Runes.CarveNarrows` state its meaning, and `Runes.Carve` is proved to compute it. |
| Runes.Carve | libs/gl-client/src/runes.rs:38-53 | The two loops of `carve` give the encoding of `Carved` on success. On failure they give the generation error. |
| Runes.GeneratedOkIff | libs/gl-client/src/runes.rs:96-111 | A policy generates exactly when it is well formed, meaning every `Add` in it is non-empty. |
| Runes.AddAlternativesOkIff | libs/gl-client/src/runes.rs:97-108 | The fold of `Add` succeeds exactly when every sub-policy is well formed. Its result is non-empty exactly when there are sub-policies. |
| Runes.AddAlternativesErrorSticks | libs/gl-client/src/runes.rs:100-108 | An error in a prefix of the sub-policies is the error of the whole fold (`try_fold` short-circuits). |
| Runes.GeneratedAllErrorSticks | libs/gl-client/src/runes.rs:39-43 | An error in a prefix of the policies is the error of the whole generation. |
| Runes.AddAlternativesMembers | libs/gl-client/src/runes.rs:101-106 | Every alternative of an `Add` comes from one of its sub-policies. Every sub-policy's alternatives are in it. |
| Runes.AddAlternativesAppend | libs/gl-client/src/runes.rs:100-107 | Folding over two lists concatenated is concatenating the two folds, errors included. |
| Runes.AddNests | libs/gl-client/src/runes.rs:96-111 | For non-empty `a` and `b`, `Add([Add(a), Add(b)])` generates the same as `Add(a + b)`, errors included. |
| Runes.GeneratedAllShape | libs/gl-client/src/runes.rs:39-43 | On success there is one restriction per policy, in policy order. |
| Runes.GeneratedAllOkIff | libs/gl-client/src/runes.rs:39-43 | Generation succeeds exactly when every policy generates. |
| Runes.GeneratedAllErrorIsFirst | libs/gl-client/src/runes.rs:39-43 | A failed generation carries the error of a policy that fails, and every earlier policy generated. |
| Runes.FirstErrorIsGeneratedAllError | libs/gl-client/src/runes.rs:39-43 | The first failing policy's error is the error of the whole generation. |
| Runes.CarvedShape | libs/gl-client/src/runes.rs:38-53 | The carved rune is the origin's restrictions followed by one restriction per policy, in order. Its code is the origin's code chained over the new ones. |
| Runes.CarvedOkIff | libs/gl-client/src/runes.rs:38-53 | `carve` succeeds exactly when every policy is well formed. |
| Runes.CarvedFirstError | libs/gl-client/src/runes.rs:39-43 | `carve` fails with error `e` exactly when `e` is the error of the first failing policy. |
| Runes.CarveNarrows | libs/gl-client/src/runes.rs:38-53 | A context meets the carved rune exactly when it meets the origin and every policy's restriction. Carving never widens authority. |
| Runes.CarveKeepsLineage | libs/gl-client/src/runes.rs:222 | A carved rune stays authorized by every master that authorized its origin. |
| Runes.CarvedText | libs/gl-client/src/runes.rs:52 | The carved text is the origin's text, then an ampersand, then the new restrictions' text. Either side may be empty. |
| Runes.CarvedDecodes | libs/gl-client/src/runes.rs:221 | A carved rune from an encodable origin decodes back to itself. |
| Runes.Display | libs/gl-client/src/runes.rs:116-135 | No contract of its own: `readonly`, `pay`, or the fold over an `Add`'s sub-policies. `Runes.DisplayAddJoins`, `Runes.WellFormedDisplayNonEmpty` and `RuneExamples.DisplayExamples` state its meaning. |
| Runes.DisplayFold | libs/gl-client/src/runes.rs:125-131 | No contract of its own: the fold that puts a bar before a tag unless the text so far is empty. `Runes.DisplayFoldJoins`, `Runes.DisplayFoldNonEmpty` and `RuneExamples.DisplayEmptyTagExamples` state its meaning. |
| Runes.WellFormedDisplayNonEmpty | libs/gl-client/src/runes.rs:116-135 | A well-formed policy has a non-empty display tag. |
| Runes.DisplayFoldNonEmpty | libs/gl-client/src/runes.rs:125-131 | The display fold over a non-empty list of well-formed policies is non-empty. |
| Runes.DisplayFoldJoins | libs/gl-client/src/runes.rs:125-131 | When no tag is empty, the display fold joins the sub-policies' tags with a bar, in order. |
| Runes.DisplayAddJoins | libs/gl-client/src/runes.rs:121-133 | A well-formed `Add` displays as its sub-policies' tags joined by a bar, with no leading separator. |
| Runes.Decimal | libs/gl-client/src/runes.rs:194-195 | The decimal rendering is a non-empty digit string with no leading zero. |
| Runes.DecimalRoundTrip | libs/gl-client/src/runes.rs:194-195 | Reading back the decimal rendering of `n` gives `n`. |
| Runes.ResolveField | libs/gl-client/src/runes.rs:184-197 | The empty field resolves to the unique id, and `method` and `pubkey` to their own values. `time` gives the decimal rendering `Decimal` of the seconds since the epoch (digits only, no leading zero, reading back to the time), or an error exactly when the time is before the epoch. Any other field resolves to the empty string. |
| Runes.CheckAlternative | libs/gl-client/src/runes.rs:183-199 | An alternative passes exactly when its field resolves and its condition holds on the resolved value. A resolution error is passed on. |
| Runes.RestrictionMet | libs/gl-client/src/runes.rs:330-404 | No contract of its own: a restriction is met when one of its alternatives passes (the OR). `Runes.AddIsDisjunction` and `Runes.SingleAlternativeRune` state what follows. |
| Runes.Met | libs/gl-client/src/runes.rs:330-404 | No contract of its own: a rune is met when every restriction is met (the AND). `Runes.AreRestrictionsMet` and `Runes.CarveNarrows` tie it to the checker and to carving. |
| Runes.CheckRestrictions | libs/gl-client/src/runes.rs:330-404 | Checking succeeds exactly when every restriction is met. Otherwise it reports the first restriction that is not met. |
| Runes.AreRestrictionsMet | libs/gl-client/src/runes.rs:330-404 | `are_restrictions_met` succeeds exactly when every restriction has a passing alternative. |
| Runes.ReadOnlyAllows | libs/gl-client/src/runes.rs:80-87 | `ReadOnly` generates the restriction with alternatives `method^Get` and `method^List`. It admits a call exactly when the method begins with `Get` or `List`. |
| Runes.PayAllows | libs/gl-client/src/runes.rs:88-95 | `Pay` generates `method=pay`. It admits a call exactly when the method is `pay`. |
| Runes.AddIsDisjunction | libs/gl-client/src/runes.rs:65-68 | The one restriction of an `Add` is met exactly when some sub-policy's restriction is met. |
| Runes.MissingOnUnknownFieldPasses | libs/gl-client/src/runes.rs:196 | An unknown field resolves to the empty string, so `Missing` on it always passes. |
| Runes.SingleAlternativeRune | libs/gl-client/src/runes.rs:259-320 | A rune of one single-alternative restriction is met exactly when that alternative passes. |
| RuneExamples.ReadOnlyText | libs/gl-client/src/runes.rs:59-61 | The `ReadOnly` restriction renders as `method^Get`, a bar, then `method^List`. |
| RuneExamples.PayText | libs/gl-client/src/runes.rs:62-64 | The `Pay` restriction renders as `method=pay`. |
| RuneExamples.CarveOne | libs/gl-client/src/runes.rs:38-53 | Carving one policy that generates `r` adds `r` to the origin and nothing else. |
| RuneExamples.MasterWithOne | libs/gl-client/src/runes.rs:212-222 | A master rune made from any seed with no restrictions, with one restriction added, encodes that restriction's text. The master authorizes it. |
| RuneExamples.CarveReadOnlyExample | libs/gl-client/src/runes.rs:210-223 | Carving `[ReadOnly]` from the master rune of any seed, created with no restrictions, succeeds. The text is `method^Get`, a bar, then `method^List`. The result decodes back to itself and the master authorizes it. |
| RuneExamples.ReadOnlyOrPay | libs/gl-client/src/runes.rs:65-68 | `Add([ReadOnly, Pay])` generates one restriction holding the alternatives of `ReadOnly`, then those of `Pay`. |
| RuneExamples.ReadOnlyOrPayText | libs/gl-client/src/runes.rs:66-67 | That restriction renders as `method^Get`, `method^List` and `method=pay`, separated by bars. |
| RuneExamples.CarveDisjunctionExample | libs/gl-client/src/runes.rs:226-241 | Carving `[Add([ReadOnly, Pay])]` from the master rune of any seed succeeds. The text is `method^Get`, `method^List` and `method=pay`, separated by bars. The result decodes back to itself and the master authorizes it. |
| RuneExamples.DisplayExamples | libs/gl-client/src/runes.rs:244-251 | `Pay`, `Add([Pay])` and `Add([Pay, ReadOnly])` display as `pay`, `pay`, and `pay` then a bar then `readonly`. |
| RuneExamples.DisplayEmptyTagExamples | libs/gl-client/src/runes.rs:125-131 | The fold drops a leading empty tag (`Add([Add([]), Pay])` gives `pay`) but keeps a trailing one (`Add([Pay, Add([])])` gives `pay` followed by a bar). `Add([])` is not well formed. |
| RuneExamples.PubkeyEqualExample | libs/gl-client/src/runes.rs:258-272 | For every context, rune r1 (`pubkey=020000000000000000`) is met exactly when the public key is that value. |
| RuneExamples.MethodEqualExample | libs/gl-client/src/runes.rs:274-288 | For every context, rune r2 (`method=GetInfo`) is met exactly when the method is `GetInfo`. |
| RuneExamples.PubkeyMissingExample | libs/gl-client/src/runes.rs:290-304 | For every context, rune r3 (`pubkey!`) is met exactly when the public key is empty. |
| RuneExamples.MethodMissingExample | libs/gl-client/src/runes.rs:306-320 | For every context, rune r4 (`method!`) is met exactly when the method is empty. |
| RuneExamples.PolicyExamples | libs/gl-client/src/runes.rs:59-64 | `ReadOnly` admits `ListFunds` and `GetInfo` and refuses `pay`. `Pay` admits `pay` and refuses `GetInfo`. |
| Credentials.UnifiedCredentials.EnsureNobody | libs/gl-client-py/src/credentials.rs:26-34 | Succeeds exactly on `Nobody`. Otherwise it fails with the identity error "credentials are not of type nobody". |
| Credentials.UnifiedCredentials.EnsureDevice | libs/gl-client-py/src/credentials.rs:36-44 | Succeeds exactly on `Device`. Otherwise it fails with the identity error "credentials are not of type device". |
| Credentials.UnifiedCredentials.TlsConfig | libs/gl-client-py/src/credentials.rs:52-57 | The TLS configuration is the held identity's own, for either variant. |
| Credentials.UnifiedCredentials.Rune | libs/gl-client-py/src/credentials.rs:65-72 | The rune is the device's rune. The panic on `Nobody` is a precondition. |
| Credentials.UnifiedCredentials.NodeId | libs/gl-client-py/src/credentials.rs:80-87 | The node id is the device's. The panic on `Nobody` is a precondition. |
| Credentials.ExactlyOneGuard | libs/gl-client-py/src/credentials.rs:26-44 | Exactly one of the two guards succeeds. The device guard succeeds exactly on `Device`. |
| Credentials.Credentials.EnsureDevice | libs/gl-client-py/src/credentials.rs:162-164 | The wrapper's device guard is the inner one, and succeeds exactly on `Device`. |
| Credentials.Credentials.EnsureNobody | libs/gl-client-py/src/credentials.rs:166-168 | The wrapper's nobody guard is the inner one, and succeeds exactly on `Nobody`. |
| Credentials.Credentials.NodeId | libs/gl-client-py/src/credentials.rs:170-172 | The node id is the inner device's. Nothing guards it, so `Nobody` is excluded by a precondition. |
| Credentials.New | libs/gl-client-py/src/credentials.rs:98-103 | `new` gives the default `Nobody` identity. |
| Credentials.NobodyWith | libs/gl-client-py/src/credentials.rs:106-110 | `nobody_with` gives a `Nobody` built from the certificate and key. |
| Credentials.FromPath | libs/gl-client-py/src/credentials.rs:113-117 | `from_path` gives the `Device` loaded from the path. |
| Credentials.FromBytes | libs/gl-client-py/src/credentials.rs:120-124 | `from_bytes` gives the `Device` parsed from the bytes. |
| Credentials.FromParts | libs/gl-client-py/src/credentials.rs:127-131 | `from_parts` gives the `Device` built from the certificate, key and rune. |
| Credentials.ConstructorsVariant | libs/gl-client-py/src/credentials.rs:98-131 | `new` and `nobody_with` pass the nobody guard and fail the device guard. `from_path`, `from_bytes` and `from_parts` pass the device guard. |
| Credentials.AsDevice | libs/gl-client-py/src/credentials.rs:140-147 | An upgraded device becomes `Device` credentials. A collaborator's error is passed on unchanged. |
| Credentials.Upgrade | libs/gl-client-py/src/credentials.rs:133-151 | On `Nobody` the upgrade fails with "can not upgrade nobody credentials". On `Device` it upgrades through the scheduler's current mode, and a success is always a `Device`. |
| Credentials.UpgradeNobodyConsultsNoOne | libs/gl-client-py/src/credentials.rs:135-137 | Upgrading `Nobody` gives the same identity error whatever the scheduler, signer and upgrade routines are, so none of them is consulted. |
| Credentials.UpgradeOutcome | libs/gl-client-py/src/credentials.rs:138-149 | Upgrading a device either passes the device guard afterwards or fails with the error of the upgrade routine for the scheduler's mode. |
| Credentials.ToBytes | libs/gl-client-py/src/credentials.rs:153-160 | Succeeds exactly on `Device`, with the device's bytes. On `Nobody` it fails with "can not convert nobody into bytes". |
| Credentials.ToBytesFromBytes | libs/gl-client-py/src/credentials.rs:120-124 | A device's bytes rebuild the same credentials through `from_bytes`, given that the library's byte form round-trips. |
| Credentials.WithCa | libs/gl-client-py/src/credentials.rs:174-187 | `with_ca` keeps the variant and attaches the CA to the held identity. |
| Credentials.WithCaKeepsGuards | libs/gl-client-py/src/credentials.rs:174-187 | Attaching a CA changes neither guard's outcome. |

## Left out

- RuneAuth.NewRune / RuneAuth.IsAuthorized: two assumptions about the rune library, which is not in the repository. `Rune::new(code, restrictions)` is taken to start from `code` and add the restrictions one by one, so its final code is `code` chained over them. `from_base64`, in contrast, reads the stored code as the final code after all restrictions, which is what `Decode` does. `is_authorized` is taken to recompute the chain from the master's seed, not from the master's current code, so the master's own restrictions play no part.
- The base64 layer of `to_base64` / `from_base64` and the 32-byte binary authentication code: `EncodedRune` keeps the code and the restriction text, which are the two parts the tests inspect.
- The keyed SHA-256 chain behind the authentication code: the model writes it symbolically, as `Extended(code, text)`. So `is_authorized` recomputes the chain exactly, with no hash collisions.
- The escaping of `|`, `&` and `\` inside field names and values: the round trip `RuneAuth.DecodeEncode` is stated only for alternatives that hold no separator. The predefined policies never do.
- The validation inside `Alternative::new` belongs to the rune library, which is not in the repository. `Runes.MakeAlternative` always succeeds, as it does for the three fixed alternatives the policies build and unwrap.
- RuneAuth.CheckValue: does not model case-insensitive comparison. Every alternative the core builds is case-sensitive.
- The rune library's other conditions (such as numeric comparisons) and its rune id and version fields: neither is used by the core.
- Runes.ResolveField: time is whole seconds as an integer, and a negative value stands for a clock before the epoch. The error message leaves out the `Debug` rendering of the system-time error that the source appends.
- `Restrictor` is generic over any `T` in `carve`. The model fixes `T` to `DefRules`, the only implementation in the repository.
- The value returned by `add_restriction` is discarded in `carve` (only its in-place effect is used), and likewise in the model.
- The credential types of the library (`Nobody`, `Device`), their TLS configurations, runes, node ids and byte forms are type parameters and function parameters. Loading from a path and parsing bytes are file and parsing work in the library, outside the core.
- Credentials.Upgrade: the asynchronous upgrade through the scheduler and the signer, and the `exec` runtime, are function parameters. The network exchange is not modelled.
- Logging, the Python bindings (`pyclass`, `PyBytes`, the conversion of errors to `ValueError`) and the `ErrorWrapper` type.
- The panics in `rune` and `node_id` on `Nobody` are preconditions, not outcomes.
- libs/gl-client/src/signer/model/mod.rs is not part of this model.
