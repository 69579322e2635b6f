# Acorn runtime: verified models of its decision logic

Acorn deploys applications on Kubernetes.  This project models the parts of its runtime that decide something, and
proves what they promise, for all inputs and all runs:

- **Tag selection for auto-upgrade** (`GoStrings`, `ImagePattern`, `Tags`).  A pattern of `#`, `*` and `**` is compiled by
  repeated rewriting; the rewriting equals one greedy left-to-right tokenisation.  The selected tag is the unique
  maximum of a lexicographic order, and the loop that asks about one tag at a time finds what a search over the
  allowed tags alone would find.
- **Secret reconciliation** (`Labels`, `Secrets`, `SecretStore`, `SecretEvaluation`, `SecretFixedPoint`, `SecretSettling`,
  `SecretReplay`, `SecretSecondPass`, `SecretWrites`, `SecretTheorems`, `SecretMeaning`, `SecretStaleTemplate`, `Reconciling`).  A memoised recursive
  evaluation over a store, with templates that refer to other secrets, possibly in cycles.  The functions of `Secrets`
  are the specification, the class `Reconciling.Reconciler` is the program proved against it, and the other modules
  prove what holds of every evaluation, every pass and every run of passes of any apps.
- **Multiplexed websocket streams** (`Channel`, `ChannelSystem`): chunking, framing and buffering over every
  interleaving of writers, read loop and readers.
- **Annotation variations and image allow rules** (`Annotations`, `AllowRules`): a mixed-radix enumeration that must be a
  bijection, and nested loops over shared mutable options that must mean a quantified formula.
- **The auto-upgrade daemon** (`Daemon`, `DaemonLoop`): what a sync tracks, checks and wakes up for, and the event loop
  with its one-slot queue and timer.
- **Ports, project names and addressing** (`Ports`, `Projects`, `MultiClient`).

A text is a sequence of characters, a time a number of nanoseconds, a Go map a finite map whose iteration order is left
open (a loop picks any remaining key).  Calls into foreign code are parameters: the regular-expression engine,
`time.ParseDuration`, registry and API answers, signature verification, encryption, random numbers.  Running out of
stack, and the panics of the original, are the outcome `Crash`.

Six promises turned out not to hold of the code as it is; each has a lemma that shows it, and one that says exactly
when the promise is kept:

- `generateVariations` loses combinations when Go ranges over the keys in different orders in different passes
  (`Annotations.LostLabelMap`); it is complete for every iteration order if and only if at most one annotation key has
  several values (`Annotations.CompleteForEveryOrderIff`), and where no list repeats a value that is also exactly when
  every selector gets the right verdict (`Annotations.VerdictForEveryOrderIff`).
- A template entry that the specification leaves blank is rendered again from its stored text, so a second pass can
  change it (`SecretStaleTemplate.StaleTemplateIsNoFixedPoint`); passes are a fixed point, whatever references and
  expressions stand for, if and only if that stored text has none in it (`SecretStaleTemplate.FixedPointIff`).
- `RenderProjectName` can turn a name into one that does not parse (`Projects.RenderCanLoseTheProject`) or into another
  project (`Projects.RenderCanSwitchTheProject`); it keeps the project if and only if the name is render-safe
  (`Projects.RenderKeepsIdentityIff`).
- A refused tag whose number does not fit an int hides an allowed upgrade (`Tags.ParseErrorHidesUpgrade`).  Asking one
  tag at a time equals filtering first, failures included, for every rule a project may have, if and only if every tag
  is comparable with the current one and the newer tags are comparable with each other (`Tags.EagerForEveryRuleIff`);
  no rule hides a tag that filtering first would find if and only if the loop, with every tag refused, is never stuck
  before such a tag (`Tags.HidesNothingIff`).
- Where image references do not resolve, the verdict on an image depends on the order of the rules
  (`AllowRules.OrderCanDecide`); it is independent of it if and only if references resolve or the covering rules are
  alike (`AllowRules.VerdictOrderFreeIff`).
- `Write` reports bytes that were not sent when a frame is lost at the close of its message
  (`Channel.LostWriteIsReported`); the count is what the frames carry if and only if that does not happen
  (`Channel.ReportIsCarriedIff`).

The comment on `NewMatcher` says that a tag must match the pattern exactly outside its groups; the code does not quote
literals, so a `.` in a pattern matches any character.  The model follows the code: literals are copied unquoted.

## Model

| member | source | states |
|---|---|---|
| ImagePattern.NewMatcher | pkg/imagepattern/pattern.go:33-70 | the find-leftmost-and-replace loop ends, and its regex text and ordered group list are those of one left-to-right tokenisation, anchored at both ends |
| ImagePattern.TokeniseIsTheGreedyReading | pkg/imagepattern/pattern.go:36-62 | a token list is the tokenisation exactly when it spells the pattern and no `*` token is followed by another star: `**` is taken first and the reading is unique |
| ImagePattern.RewriteStep | pkg/imagepattern/pattern.go:50-62 | one iteration replaces the leftmost mark of either kind, keeps the final text and group list, and uses up exactly one mark |
| ImagePattern.GroupNamesDistinct | pkg/imagepattern/pattern.go:51-61 | group names are pairwise different |
| ImagePattern.SampleWildcard | pkg/imagepattern/pattern.go:34-38 | the regex text of `**`, which is no group |
| Tags.FindLatest | pkg/autoupgrade/tags.go:90-154 | on success no other matching tag is newer: at the first group in which it differs, the result has the larger number or the text that is larger character by character; ties keep the current tag and then the earliest, a non-matching current loses to any match; it succeeds when all tags are comparable with the current one and the newer ones with each other |
| Tags.AboveMeans | pkg/autoupgrade/tags.go:117-149 | the order used by the scan is: a matching tag against a non-matching one, else the first group that differs, larger as a number or as a text |
| GoStrings.LessMeans | pkg/autoupgrade/tags.go:124-130 | a text is larger when its first differing character is greater or when it extends the other |
| GoStrings.AtoiOfDecimal | pkg/autoupgrade/tags.go:133-140 | a printed number is read back with its sign, and refused beyond 64 bits |
| Tags.CompareTransitive | pkg/autoupgrade/tags.go:120-149 | the left-to-right order of groups is transitive even where some numbers do not parse |
| Tags.LatestUnique | pkg/autoupgrade/tags.go:90-154 | the description of the latest tag determines it |
| Tags.LatestRankOrderFree | pkg/autoupgrade/tags.go:105-151 | the rank of the result does not depend on the order or multiplicity of the tags |
| Tags.FindLatestTagForImageWithPattern | pkg/autoupgrade/tags.go:40-82 | the loop ends; where the listed tags are comparable, or the search over the allowed tags succeeds and the loop cannot get stuck, the image is that of the latest allowed tag, reported as updated exactly when it differs from the current one, and nothing is reported exactly when the search ends on the placeholder |
| Tags.SearchIsEager | pkg/autoupgrade/tags.go:54-71 | asking, removing and retrying ends with the tag found among the allowed tags only |
| Tags.RefusedMeaning | pkg/autoupgrade/tags.go:51-79 | a refusal is reported exactly when something newer was listed and none of it is allowed |
| Tags.EagerForEveryRuleIff | pkg/autoupgrade/tags.go:54-71 | lazy and eager search agree for every allow function, failures of the eager one included, exactly when every tag is comparable with the current one and the newer ones with each other |
| Tags.HidesNothingIff | pkg/autoupgrade/tags.go:54-71 | for every allow function under which the eager search succeeds the lazy one finds its tag, exactly when the loop that is refused everything never meets a failing scan with a findable tag left |
| Tags.ParsesDecides | pkg/autoupgrade/tags.go:131-138 | numbers that all fit an int make all these comparisons succeed |
| Tags.ParseErrorHidesUpgrade | pkg/autoupgrade/tags.go:55-59 | without parsable numbers lazy and eager search differ |
| Labels.GatherScoped | pkg/labels/labels.go:121-138 | every key holds the value of the last applicable scoped label, else the resource's own, else the global one; keys containing `acorn.io/` are gone |
| Labels.ExcludeAcornKey | pkg/labels/labels.go:85-94 | exactly the entries whose key does not contain `acorn.io/` |
| Labels.AcornKeyMeans | pkg/labels/labels.go:88-90 | a key is acorn's own exactly when `acorn.io/` stands at some position in it |
| Labels.AppliesMeans | pkg/labels/labels.go:124-136 | a scoped label applies when its type agrees letter by letter in either case and its name exactly, an empty part agreeing with all |
| Labels.GatheredMeans | pkg/labels/labels.go:121-138 | the last applicable scoped label wins over the resource's own label, and that over the global one |
| SecretTheorems.LookupLabelsSurvive | pkg/secrets/secret.go:296-312 | whatever labels the user supplies, the labels written contain the labels looked up |
| SecretMeaning.LabelsOfSecret | pkg/secrets/secret.go:296-312 | every user label that is not acorn's own is on the secret, with its public name and the lookup labels and nothing else |
| SecretStore.WrittenObjectIdentity | pkg/secrets/secret.go:319-343 | a written object is selected by its own app and secret name and by no other |
| SecretStore.PutEntries | pkg/secrets/secret.go:266-294 | a write changes the entry it is for and no other entry of any app |
| SecretEvaluation.GetKeeps | pkg/secrets/secret.go:374-440 | whatever the outcome, earlier answers stay, a secret under evaluation is neither answered nor written by an inner evaluation of itself, and the store only evolves in the permitted way |
| SecretEvaluation.TemplateKeeps | pkg/secrets/secret.go:131-195 | the same for a template, whose references may be cyclic |
| SecretSettling.GetSettles | pkg/secrets/secret.go:374-440 | every answer given can be recomputed from the store and the other answers |
| SecretReplay.ReplayGet | pkg/secrets/secret.go:374-440 | evaluating a settled secret again writes nothing and gives the same answer, whatever the entropy |
| SecretWrites.GetWritesOnce | pkg/secrets/secret.go:374-440 | a successful evaluation writes each secret at most once, and only secrets it answers |
| SecretTheorems.PassWritesOnce | pkg/controller/secrets/secret.go:50-116 | an error-free pass writes each secret at most once |
| SecretTheorems.AcyclicTerminates | pkg/secrets/secret.go:131-195 | with references that go down in rank, a stack deeper than the ranks carries a whole pass to its end |
| SecretTheorems.MemoEqualsFreshEvaluation | pkg/secrets/secret.go:374-440 | a fresh evaluation of a memoised name against the resulting store writes nothing and never contradicts the memo; with acyclic references, a working API and a stack deeper than the rank it answers with the memoised value |
| SecretTheorems.SecondPassWritesNothing | pkg/secrets/secret.go:266-294 | after a successful pass a second one, whatever happens to it, leaves the store alone and contradicts no answer |
| SecretTheorems.SecondPassAnswersTheSame | pkg/secrets/secret.go:374-440 | with a working API and no less stack the second pass succeeds with exactly the values of the first and writes nothing, whatever the randomness and the references |
| SecretSecondPass.GetAgain | pkg/secrets/secret.go:374-440 | evaluating a secret again, while the answered secrets keep their objects, repeats the answer and the memo and writes nothing |
| SecretTheorems.StoredSecretsMeetTheSpec | pkg/secrets/secret.go:131-264 | after a pass the stored objects carry the app's labels, the supplied values, and templates with each reference replaced by the referenced value |
| SecretTheorems.GeneratedShapes | pkg/secrets/secret.go:197-264 | generated tokens have the requested length and alphabet, generated credentials 8 and 16 characters |
| SecretMeaning.DrawMeans | pkg/secrets/secret.go:442-452 | character `i` is the one picked by the random number `i` places on, and one missing number fails the whole |
| SecretMeaning.CredentialsMean | pkg/secrets/secret.go:245-264 | missing user names and passwords are picked by random numbers that do not overlap, present ones are kept |
| SecretMeaning.SecretsDrawApart | pkg/secrets/secret.go:442-452 | no random number is used for two secrets |
| SecretMeaning.DataKeys | pkg/secrets/secret.go:197-264 | the keys of generated data are those of the definition or those the kind prescribes |
| SecretTheorems.UniqueInEveryRun | pkg/secrets/secret.go:280-343 | over every run of passes of any apps, at most one generated object per app and secret name |
| SecretTheorems.GeneratedValuesSurvive | pkg/secrets/secret.go:35-51 | over every run, a generated token, user name or password changes only when the specification supplies one |
| SecretStaleTemplate.StaleTemplateIsNoFixedPoint | pkg/secrets/secret.go:139-191 | with a blank entry over stored template text, a second pass writes again |
| SecretStaleTemplate.FixedPointIff | pkg/secrets/secret.go:131-195 | over all environments with the same inert texts, passes are a fixed point exactly when the stored text under every blank entry of a generated template is inert |
| Reconciling.SeedData | pkg/secrets/secret.go:35-51 | existing values, overlaid by the specification's, never replacing text by nothing |
| Reconciling.DrawString | pkg/secrets/secret.go:442-452 | one drawn character per position |
| Reconciling.Reconciler.GetSecret | pkg/secrets/secret.go:319-343 | the selected object with the smallest UID |
| Reconciling.Reconciler.UpdateOrCreate | pkg/secrets/secret.go:266-294 | creates, updates or leaves alone, and answers with decrypted data |
| Reconciling.Reconciler.Origin | pkg/secrets/secret.go:379-408 | the last binding of the name, then the external secret, both in the app's namespace, then the alias, then a dotted name, both in the namespace the app runs in; generated here exactly when none of them is there |
| SecretMeaning.ReferenceIsFollowed | pkg/secrets/secret.go:374-425 | a name that stands for a secret elsewhere is answered by looking that secret up, whatever is defined for the name, and memoised; a context secret is not memoised |
| SecretMeaning.OwnOrElsewhere | pkg/secrets/secret.go:379-408 | every name is either generated by the app or stands for exactly one secret elsewhere |
| SecretMeaning.OwnIsGenerated | pkg/secrets/secret.go:345-440 | any other name is generated and memoised, and fails without a definition or when the API does |
| Reconciling.Reconciler.GetOrCreateSecret | pkg/secrets/secret.go:374-440 | answer and new state are those of the specified evaluation |
| Reconciling.Reconciler.TemplateSecret | pkg/secrets/secret.go:131-195 | the same for templates |
| Reconciling.Reconciler.RenderText | pkg/secrets/secret.go:155-174 | every reference of a text is evaluated, also after one has failed |
| SecretMeaning.EveryReferenceIsAsked | pkg/secrets/secret.go:155-174 | a text asks for every secret it refers to, in order, also after one has failed |
| SecretMeaning.SegmentsInOrder | pkg/secrets/secret.go:155-174 | the pieces of a text are rendered in their order |
| SecretMeaning.EntriesInTurn | pkg/secrets/secret.go:150-192 | entries are rendered in turn up to the first that fails |
| Reconciling.Reconciler.NewData | pkg/secrets/secret.go:197-264 | the data of opaque, basic, token and job-generated secrets |
| Reconciling.Reconciler.FillCredentials | pkg/secrets/secret.go:252-261 | missing credentials are generated, existing ones kept |
| Reconciling.Reconciler.CreateSecrets | pkg/controller/secrets/secret.go:50-116 | a pass over all names with one memo, ended by an API status error other than "not found" |
| SecretMeaning.EveryNameIsTried | pkg/controller/secrets/secret.go:60-85 | a pass that nothing ends evaluates all its names, going on after failures |
| SecretMeaning.PassStops | pkg/controller/secrets/secret.go:73-75 | after an ending failure no further name is evaluated |
| Channel.Connection.GetStream | pkg/k8schannel/websocket.go:69-85 | a stream exists from its first use, initialised unless the connection needs initialising |
| Channel.Connection.PushStreamData | pkg/k8schannel/websocket.go:87-99 | the first frame of an uninitialised stream only initialises it, others are buffered |
| Channel.Connection.OnMessage | pkg/k8schannel/websocket.go:101-117 | one round of the read loop |
| Channel.Connection.Read | pkg/k8schannel/websocket.go:119-138 | one attempt to read: as many buffered bytes as there is room for, the rest kept, the error with the last byte or alone, blocked if there is neither |
| Channel.Connection.Write | pkg/k8schannel/websocket.go:151-183 | sends the pieces of at most 1024 bytes in order up to the first that is not sent, fails exactly if there is one, and reports the bytes sent plus a frame lost at the close |
| Channel.ReportIsCarriedIff | pkg/k8schannel/websocket.go:159-182 | the count returned is what the frames carry exactly when no frame was lost at the close |
| Channel.LostWriteIsReported | pkg/k8schannel/websocket.go:177-182 | a write whose only frame is lost at the close reports every byte and sends none |
| Channel.CarriedPrefix | pkg/k8schannel/websocket.go:156-165 | what the frames carry is a prefix of the buffer, and all of it when every frame is sent |
| Channel.Chunks | pkg/k8schannel/websocket.go:156-165 | the pieces are non-empty, at most 1024 bytes, and add up to the buffer |
| Channel.ChunksFull | pkg/k8schannel/websocket.go:156-165 | every piece but the last has 1024 bytes |
| ChannelSystem.StreamsDeliverInOrder | pkg/k8schannel/websocket.go:69-183 | in every state of every interleaving, frames carry 1 to 1024 bytes, and the dropped first frame, the bytes read and the bytes buffered are a prefix of what was written to the stream; while the read loop runs, the bytes on the wire and still to be sent are the rest |
| ChannelSystem.ErrorComesLast | pkg/k8schannel/websocket.go:101-138 | over every run, a read reports the error only with the last byte its stream ever gets |
| ChannelSystem.ReadTakes | pkg/k8schannel/websocket.go:119-138 | in every reachable state a read takes exactly as many of the bytes pushed and not yet taken as it has room for, reports the error exactly with the last of them, and blocks exactly without bytes and error |
| ChannelSystem.DrainsAfterError | pkg/k8schannel/websocket.go:119-138 | once the error is set, reads have taken all that was left exactly when they had room for it, and from then on every read reports the error and no byte, whatever else happens |
| ChannelSystem.DrainsInTime | pkg/k8schannel/websocket.go:119-138 | with room for `room` bytes per read, `n` bytes are drained by exactly the reads they fill, rounded up |
| ChannelSystem.NextKeepsInv | pkg/k8schannel/websocket.go:87-183 | every step keeps the delivery invariant |
| ChannelSystem.EmitsAreTheWrite | pkg/k8schannel/websocket.go:151-183 | the chunk steps of one write send exactly the frames of `Write` |
| Annotations.GenerateVariations | pkg/cosign/cosign.go:259-280 | for any iteration orders there are as many outputs as combinations, and each picks one listed value per key, at the digits of its number |
| Annotations.OneVariation | pkg/cosign/cosign.go:271-277 | the running radix yields the mixed-radix digits |
| Annotations.EachChoiceOnce | pkg/cosign/cosign.go:270-278 | with one order, every combination is produced exactly once |
| Annotations.ProductOrderFree | pkg/cosign/cosign.go:261-264 | the count does not depend on the iteration order |
| Annotations.CompleteForEveryOrderIff | pkg/cosign/cosign.go:270-278 | complete for every family of iteration orders exactly when at most one key has several values |
| Annotations.VerdictForEveryOrderIff | pkg/cosign/cosign.go:244-278 | where no list repeats a value, every selector gets the right verdict for every family of orders exactly when at most one key has several values |
| Annotations.LostLabelMap | pkg/cosign/cosign.go:270-278 | otherwise a label map exists that no pass outputs |
| Annotations.CollectLists | pkg/cosign/cosign.go:236-243 | each key's non-nil values across the payloads, in order |
| Annotations.ChoicesArePicks | pkg/cosign/cosign.go:236-243 | choosing positions in the collected lists is picking values from the payloads |
| Annotations.CheckAnnotations | pkg/cosign/cosign.go:226-257 | passing is always justified by a label map that picks for every key one of the values some payload gives it; with one order, or whatever the orders if at most one key has several values, an image passes exactly when the selector is empty or such a map satisfies it |
| AllowRules.CheckImageAgainstRules | pkg/imageallowrules/imageallowrules.go:67-173 | allowed exactly when some covering rule has, for every signature rule, all `allOf` signers verified and `anyOf` empty or one of it verified, with that rule's annotations; feature off allows, no rules denies, and unresolved references let the first covering rule decide |
| AllowRules.VerifyOpts.CheckSignature | pkg/imageallowrules/imageallowrules.go:122-167 | all of `allOf` verify and `anyOf` is empty or one verifies; signers are asked in order, up to the deciding one |
| AllowRules.AskUntilMeans | pkg/imageallowrules/imageallowrules.go:122-167 | signers are asked in order up to the first whose answer settles the matter |
| AllowRules.QuestionsBelongToTheirRule | pkg/imageallowrules/imageallowrules.go:86-145 | despite the shared options every verification uses the annotations and a signer of its own covering rule |
| AllowRules.VerdictOrderFreeIff | pkg/imageallowrules/imageallowrules.go:109-172 | the verdict is independent of rule order exactly when references resolve or the covering rules are alike |
| AllowRules.OrderCanDecide | pkg/imageallowrules/imageallowrules.go:109-172 | with unresolved references, a covering rule without signatures allows the image in first place and not in second |
| AllowRules.FirstCoveringMeans | pkg/imageallowrules/imageallowrules.go:94-121 | the rule that decides without references is the first that covers |
| Daemon.Syncer.Sync | pkg/autoupgrade/daemon.go:89-138 | an app is refreshed exactly when its last check plus its own interval, or the default one, is past, or when it was created since; tracked are exactly the listed apps with auto-upgrade on, with their old time, zero if new, or the current one if their check was recorded; nothing tracked is due before the wake-up instant, which is the default one or the due time of some app; failures leave the times alone |
| Daemon.PatternMeans | pkg/autoupgrade/daemon.go:299-345 | which apps take part, and under which image and namespace they are grouped |
| Daemon.AppsOfMeans | pkg/autoupgrade/daemon.go:110-115 | of several listed apps with one key the last counts |
| Daemon.Syncer.AddNew | pkg/autoupgrade/daemon.go:110-125 | new apps with auto-upgrade on are tracked as never checked |
| Daemon.Syncer.DetermineAppsToRefresh | pkg/autoupgrade/daemon.go:145-173 | exactly the listed apps with auto-upgrade on stay tracked; the groups hold each due app once, under its own image and namespace |
| Daemon.Syncer.RefreshImages | pkg/autoupgrade/daemon.go:178-281 | a check time becomes the current time for checked due apps and is otherwise unchanged |
| Daemon.Syncer.NearestNextCheck | pkg/autoupgrade/daemon.go:129-137 | the wake-up instant is the minimum over all tracked apps and the default, in any iteration order |
| Daemon.CheckTimesNeverDecrease | pkg/autoupgrade/daemon.go:89-138 | over any number of syncs with a forward clock, check times never go back |
| DaemonLoop.EveryReachableState | pkg/autoupgrade/daemon.go:48-87 | requests keep the slot full, a waiting loop will be woken, syncs never overlap, and those of the loop start at least a second apart |
| DaemonLoop.WaitingIsTimed | pkg/autoupgrade/daemon.go:58-80 | a loop that waits on an empty queue has its timer set for the wait of the last sync, counted from after it, or has the tick pending once that has passed |
| DaemonLoop.RequestsAreServed | pkg/autoupgrade/daemon.go:19-32 | no request is lost by being dropped: a sync starts after it before the loop idles |
| DaemonLoop.QueuedRequestIsServed | pkg/autoupgrade/daemon.go:48-87 | a request made before the loop starts is followed by a sync of the loop |
| DaemonLoop.NextKeepsInv | pkg/autoupgrade/daemon.go:57-86 | every step of loop, timer, clock and requesters keeps the invariant |
| Ports.Collector.CollectPorts | pkg/ports/publish.go:197-238 | the two maps decide each port as the ports kept so far do, and every port kept is a listed one, with the target's number where it has no public one |
| Ports.CollectContainerPorts | pkg/ports/publish.go:250-261 | container and sidecars with shared maps are one pass over their concatenation, and the result is clean |
| Ports.CollectConcat | pkg/ports/publish.go:250-261 | two rounds are one round over the concatenation |
| Ports.CollectIsClean | pkg/ports/publish.go:197-238 | distinct hostnames, one target per public port, a hostname on every repeat, no dev ports outside dev mode |
| Ports.CollectedPorts | pkg/ports/publish.go:197-238 | a collected port comes from a listed one allowed in the mode, with the same target, hostname, protocol and flag, and takes the target's number only where it has none |
| Ports.UnrivalledIsCollected | pkg/ports/publish.go:197-238 | a port that shares neither hostname nor effective number with one listed before it is collected |
| Ports.MissingHasRival | pkg/ports/publish.go:197-238 | a port that does not come out shares a hostname or an effective number with one that does |
| Ports.CollectIdempotent | pkg/ports/publish.go:197-238 | collecting a collected list returns it |
| Ports.DroppedForAReason | pkg/ports/publish.go:197-238 | a port that is missing is a dev port or clashes with a collected one |
| Projects.FullForm | pkg/project/client.go:137-158 | what a full name means and when it is refused |
| Projects.ShortNames | pkg/project/client.go:127-158 | what a bare namespace and an account with a namespace mean in the default context `server/account` |
| Projects.RenderForms | pkg/project/client.go:111-125 | rendering drops the default server and account, or else the default server, or else nothing |
| Projects.RenderKeepsIdentityIff | pkg/project/client.go:111-159 | for every name that parses, rendering keeps the project exactly when the name is render-safe |
| Projects.FullNamesRoundTrip | pkg/project/client.go:111-159 | full names round trip under a well-formed default context |
| Projects.RenderInjective | pkg/project/client.go:111-125 | render-safe names that render alike are the same project |
| Projects.RenderCanLoseTheProject | pkg/project/client.go:111-159 | with an account in a local default context, local projects render to names that do not parse |
| Projects.RenderCanSwitchTheProject | pkg/project/client.go:111-159 | an account named `kubeconfig` on the default server renders to a project of the local server |
| MultiClient.ForProject | pkg/project/client.go:82-93 | the first client for no project, the first of the named project, or a new one |
| MultiClient.Aggregate | pkg/client/multi.go:48-68 | all objects of all clients in turn: as they are for an only client, else after their project; none is missing |
| MultiClient.OnOne | pkg/client/multi.go:102-125 | dispatch by the part before the last slash, to a new client where none has that project, result under its listed name |
| MultiClient.AddressListed | pkg/client/multi.go:102-125 | a listed name reaches the client it came from with the original name and comes back under the same name |
| MultiClient.NamesDistinct | pkg/client/multi.go:48-68 | listed names are pairwise different |

## Left out

- Tags.FindLatest: the regular-expression engine is a parameter that maps a tag to its submatches; fetching the tags from registry and local store is not modelled.
- Tags.FindLatestTagForImageWithPattern: states equality with the eager search where the tags are comparable or the loop cannot get stuck; `Tags.EagerForEveryRuleIff` and `Tags.HidesNothingIff` show that it holds for every allow function exactly there.
- Labels.GatherScoped: case folding of resource types covers ASCII only.
- SecretTheorems.SecondPassWritesNothing: requires inert stored text under blank template entries; `SecretStaleTemplate.FixedPointIff` shows that nothing less will do for all environments in which the same texts are inert.
- SecretEvaluation.GetKeeps: the client's list is the current store, so duplicates created through a stale cache are not captured.
- Reconciling.Reconciler.UpdateOrCreate: object types, and update conflicts other than a failing call, are not modelled.
- Channel.Connection.Write: a frame goes out whole or not at all, also when its message fails to close, and pings and deadlines are not modelled.
- Reconciling.Reconciler.CreateSecrets: whether a failure is an API status error other than "not found" is an answer of the environment; the status messages and the copies handed to the app's namespace are not modelled.
- ChannelSystem.ErrorComesLast: safety only; whether a blocked reader is woken is not claimed, since the error is set without the stream's lock.
- Annotations.GenerateVariations: the number of combinations is unbounded, so integer overflow of the count is not captured.
- Daemon.Syncer.Sync: time arithmetic is unbounded, and the wait handed to the timer is the wake-up instant minus the time at which it is read.
- Daemon.Syncer.RefreshImages: the upgrade decision itself is a parameter; only its effect on the check times is modelled.
- DaemonLoop.NextKeepsInv: a timer's tick enters its channel in one step with firing.
- Ports.CollectContainerPorts: sidecars come as a list already in name order.
- Image coverage by a rule, signature verification, and resolution of image references are answers of the environment.
- Parsing of template text into segments, image and expression interpolation, encryption, job outputs, `context://` secrets and references to other apps' secrets are functions of the environment.
- Port bindings and publishing, configuration merging, profiles, roles, image building, DNS, the command line and the API server are not modelled; they would add long but easy members.
