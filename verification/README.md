# Verification of the run402 client code

A Dafny model of the parts of the repository whose behaviour spans many calls or many inputs, with
proofs about them. `dafny verify dfyconfig.toml` checks everything.

| component | files | what is proved about it |
|---|---|---|
| Schema compiler, `src/schema.ts` | `SchemaNodes`, `SchemaParse`, `SchemaEmit`, `JsonSchema`, `SchemaMeaning`, `SchemaValid`, `SchemaEmitProof`, `SchemaTheorems`, `SchemaAgreement`, `SchemaReferences`, `SchemaPublished`, `SchemaProto`, `SchemaLimits`, `SchemaForm`, `SchemaYields` | what a parse gives and complains about; parsing and the published JSON Schema agree; `$ref` sharing changes nothing; where either fails, exactly |
| Sandbox, `src/sandbox.ts` | `StructuredClone`, `Utf8`, `EventLoop` | the clone is isomorphic; the two codecs invert each other exactly where they can; the loop neither sleeps through work nor returns early, and past its deadline returns; what decides the outcome |
| Key cache, `core/src/keystore.ts` | `KeyStore`, `KeyStoreLock` | calls of any number of processes, with crashes and failures anywhere, take effect one after another; what a reader finds, field by field; what a failed read destroys |
| Active project, `core/src/profile-state.ts` | `ProfileState` | what set and clear do to every scope, over all runs, failed reads included |
| Chain proxy, `src/sandbox-proxy.ts` | `EditDistance`, `WireCodec`, `WireRoundTrip` | least cost of an edit script; what crosses the wire and what comes back |
| Manifest sorting, `astro/src/ssr-determinism.ts` | `ManifestLexer`, `ManifestBody`, `ManifestSort` | one canonical text, nothing but list order changed |
| PNG writer, `astro/src/blurhash-decoder.ts` | `PngChecksums`, `PngWriter` | a checking decoder gets the image back; the checksums are the standard ones |
| Result store, `src/result-store.ts` | `ResultStore` | the store shows exactly the recent, live part of its history |
| RPC server, `src/mcp-server.ts` | `RpcFraming` | chunking does not matter; every request is answered once, with the one exception, and with what |
| Batched signing, `astro/src/manifest.ts` | `BatchSigning` | batches equal signing one by one, in whatever order they settle; what a signed reference holds |

## How things are represented

- A schema is a table of nodes, children before parents; the index of a node is its identity, which is
  what the emitter's `seen` map is keyed by. JSON Schema validation follows sections 6.1 to 6.7 of
  draft-handrews-json-schema-validation-01, `$ref` section 8.3 of draft-handrews-json-schema-01, and
  fragments section 4 of RFC 6901. `RegExp.test` and `URL.canParse` are the two functions of an `Oracle`.
- Object graphs (clone, wire codec) live in a heap that is a sequence of nodes; an object is its address,
  so sharing and cycles are visible. Lengths of strings are counted in one unit throughout.
- The sandbox loop and the lock protocol are step functions: one step is one stretch of code nobody can
  interrupt, and what the guest, the host calls, the clock and the file system do is the step's choice.
  A run is any sequence of possible steps; the theorems hold after every run.
- A 32-bit integer is a `bv32` in the UTF-8 codec and a sequence of 32 booleans in the CRC. A byte
  elsewhere is a number below 256.
- Code that updates variables or fields is a method or a class here, too, and its contract ties it to a
  function of the input or of the old state; the theorems are about those functions.

## Where the code does not do what one might expect

Each of these is proved, with the exact condition or a witness.

- The published document is not the schema's own parser but another schema's: the one in which strip
  mode is strict, refinements are gone and of the checks those are left that the document prints. The
  document validates exactly what that schema's parser accepts (`SchemaPublished.DocumentAsParser`), so
  running both parsers on a value tells whether parser and document agree on it. One schema and value
  for each difference: `SchemaLimits.StripAcceptsMore`, `SchemaLimits.Refinement`,
  `SchemaLimits.LostMinimum`, `SchemaLimits.LostPattern`, `SchemaLimits.LostFlags`.
- Number checks: parser and document agree on all numbers exactly when the document admits none, or every
  bound among the checks is met between the last minimum and the last maximum, taken to whole numbers for
  integers (`SchemaPublished.NumbersExactly`). String checks: exactly when the document admits none, or
  all patterns are the last one and have no flags (`SchemaPublished.TextsExactly`). The document admits
  all strings the parser accepts exactly when the lengths leave none, or the last pattern also stands
  among the checks without flags, which are not printed (`SchemaPublished.FlagsExactly`).
- A union option that emits `{}` is dropped from `anyOf`. In a document without references the union then
  validates exactly what its other options admit, while the parser accepts everything
  (`SchemaPublished.DroppedExactly`). In one with references the paths of later options keep the index
  they had, and lead to whatever option has moved there, or nowhere (`SchemaReferences.ShiftedPath`); a
  reference to a boolean that finds a null is `SchemaLimits.ShiftedReference`.
- A `$ref` text is read back as the path it was made of exactly when no key on it holds a `/` and
  unescaping leaves every key alone; the text of such a path leads to its schema
  (`SchemaTheorems.RefResolves`). Where a slash cuts a key, the document may admit nothing
  (`SchemaLimits.SlashInKey`). Without references keys do not matter (`SchemaReferences.RefFreeMeaning`).
- A declared member called `__proto__` is missing from `properties` and still `required`. The document of
  the object validates exactly what the schema without the member admits and, if the member is needed,
  only what has it: emitted without sharing, published without references, or published with references
  none of which goes through such a member (`SchemaProto.ProtoExactly`, and in the parser's terms
  `SchemaProto.ProtoAsParser`). So a closed object that needs it admits nothing (`SchemaProto.ProtoMember`),
  while the parser takes objects with one (`SchemaProto.ProtoParses`). A schema first emitted under such a
  member is recorded at a path the document does not have. A reference to it leads nowhere
  (`SchemaTheorems.RefResolves`), and a document with one admits nothing, wherever it stands
  (`SchemaTheorems.DocumentMeaning`): an optional member is enough (`SchemaProto.ProtoOptional`).
- Inside the lock, a read of the key cache that fails is taken for an empty cache, and the call goes on to
  save it: all other projects are lost, and the call returns normally (`KeyStoreLock.FailedReadLoses`).
  What a call saved is seen by every later reader exactly when no later call wrote after a failed read
  (`KeyStoreLock.UpdateKept`).
- A request is left without any response, against section 5 of the JSON-RPC 2.0 specification, exactly
  when validating its arguments or its handler's structured content throws, or the handler ran and
  returned nothing, threw something without a message or with one that cannot be written as JSON, or gave
  a result that is passed on and cannot be written (`RpcFraming.RepliesExactly`).
- Decoding and encoding bytes gives them back exactly when they are well-formed UTF-8 without a leading
  byte order mark (`Utf8.EncodeAfterDecode`).
- Clearing a project right after setting it restores the earlier selection exactly when that was nothing
  or another project with a nonempty name; a scope without an entry of its own is undisturbed exactly
  when it agreed with the scope that changed (`ProfileState.ClearAfterSet`).
- A read of the profile state that fails is taken for an empty state, and set and clear save it over every
  other scope: a scope with an entry of its own keeps it through the calls of others exactly when none of
  their reads failed (`ProfileState.OwnEntryUnaffected`).
- An argument comes back from the wire exactly when it is free of minus zero, invalid dates, objects
  whose only key is `__r402`, `__proto__` keys, handles of another run, and keys the host cannot tell
  apart (`WireRoundTrip.RoundTrip`). An invalid date arrives as the epoch (`WireRoundTrip.ArrivesAs`).
- A plain object is cloned property by property exactly when none of them is called `__proto__`
  (`StructuredClone.PropertiesKept`).
- The manifest sort is canonical exactly when no list spells a string two ways
  (`ManifestSort.CanonicalExactly`).
- An image without rows has a stream without a final block, and zero is no side of an image: a decoder
  refuses both, and every other image comes back (`PngWriter.PngBack`).
- When several signing batches fail, the error is that of the one that settles first, which may be any
  of them (`BatchSigning.AnyFailure`).
- A lock directory left behind by a crash, or by a failed removal, is never taken again, and the file
  stays as it is (`KeyStoreLock.DroppedStays`).

## Model

| member | source | states |
|---|---|---|
| SchemaParse.ParseNode | src/schema.ts:102-563 | validating a value against any node, with issues pushed onto the context in order, yields exactly the parse function's value and issues |
| SchemaParse.ParseString | src/schema.ts:148-155 | a string passes when every check holds; the first failing check is the one issue |
| SchemaParse.ParseNumber | src/schema.ts:209-217 | the same for numbers |
| SchemaParse.ParseArray | src/schema.ts:332-338 | every element is parsed at its own path and all issues are kept |
| SchemaParse.ParseRecord | src/schema.ts:356-366 | every entry is parsed at its own key and all issues are kept |
| SchemaParse.ParseObject | src/schema.ts:405-422 | declared members in shape order, then undeclared ones refused, dropped or kept by mode |
| SchemaParse.FilterUndeclared | src/schema.ts:417-421 | the undeclared members, in order |
| SchemaParse.ParseUnion | src/schema.ts:472-479 | the first option that parses without issues wins; otherwise one issue |
| SchemaParse.RunSafeParse | src/schema.ts:87-92 | success exactly when no issue was recorded |
| SchemaYields.SafeParseExactly | src/schema.ts:87-563 | `safeParse` of a JSON value succeeds exactly when the schema takes the value, with exactly what the schema yields for it: elements and entries one by one, a declared member exactly when it is there, a union its first option that takes the value, a refinement what its inner schema yields if the check holds of that |
| SchemaYields.MembersBack | src/schema.ts:405-422 | in any mode, key by key: a declared member is in the result exactly when it is in the value, as its own schema yields it; an undeclared one exactly in loose mode, unchanged |
| SchemaYields.StripIgnores | src/schema.ts:405-422 | a strip object gives for a value, accepted or not, what it gives for the value without its undeclared members |
| SchemaYields.IssuesExactly | src/schema.ts:87-563 | the issues of a parse are exactly the objections, each with the path of the part objected to and its code: a part of the wrong kind or failing a check, undeclared members of a strict object with their names, a union no option of which takes the value, a refinement's check |
| SchemaEmit.EmitNode | src/schema.ts:579-587 | emission through the updated `seen` map yields exactly the emit function's document and paths |
| SchemaEmit.EmitNodeBody | src/schema.ts:105-571 | the same for each schema class's body |
| SchemaEmit.EmitText | src/schema.ts:156-165 | the keywords of all string checks, folded in order |
| SchemaEmit.EmitNumber | src/schema.ts:218-226 | the keywords of all number checks, folded in order |
| SchemaEmit.EmitShape | src/schema.ts:423-438 | properties and required keys, with one `seen` map passed through |
| SchemaEmit.EmitUnion | src/schema.ts:495-499 | the options' documents at their `anyOf` paths |
| SchemaEmit.RunToJsonSchema | src/schema.ts:589-592 | the published document |
| SchemaForm.FirstUse | src/schema.ts:579-586 | for every table and call: a schema met before is nothing but a reference to where it was first met; one met for the first time is recorded there for good, and its document carries its own description |
| SchemaForm.NothingInside | src/schema.ts:339-370 | where the schema inside emits nothing: an array says nothing of its items, a record holds anything, an optional outside an object is `{}`, any other wrapper emits nothing either |
| SchemaForm.CollapsedIs | src/schema.ts:480-494 | a union is written without `anyOf` exactly when its options are all plain, all literals without a description, or all enums: with the types, the values and their types, or the values of all, each once |
| SchemaEmitProof.EmitOk | src/schema.ts:579-587 | every emission stands for its schema, keeps all earlier paths, and places a body of each newly recorded schema at its recorded path, unless that goes through a member called `__proto__` |
| JsonSchema.TokensExactly | src/schema.ts:581-582 | the text of a path is read back as that path exactly when no part holds a slash and unescaping leaves every part alone |
| SchemaMeaning.ExpandRepr | src/schema.ts:581-582 | a document none of whose references goes through a member called `__proto__` expands, in as many hops as the node's index, to one without references that stands for the same schema |
| SchemaValid.ValidRepr | src/schema.ts:423-570 | a reference-free document that stands for a schema validates exactly the values the schema admits |
| SchemaValid.CollapsedMeaning | src/schema.ts:480-494 | the three collapsed forms of a union validate exactly what its options admit |
| SchemaTheorems.RefResolves | src/schema.ts:579-592 | whatever the keys: a recorded path is read back from its `$ref` text exactly when its parts mean themselves, and the text then resolves to a body of that very schema, or to nothing exactly when it goes through a member called `__proto__` |
| SchemaTheorems.RefsResolve | src/schema.ts:579-592 | over such keys, every recorded `$ref` text resolves inside the finished document, those through a member called `__proto__` aside, of which there are none when no key is called that |
| SchemaTheorems.RefsTerminate | src/schema.ts:579-592 | following references terminates within the schema's own height |
| SchemaTheorems.DocumentMeaning | src/schema.ts:589-592 | the published document validates exactly the values the schema admits, and none at all when one of its references goes through a member called `__proto__` |
| SchemaTheorems.SharingPreservesMeaning | src/schema.ts:579-587 | a document emitted with `$ref` sharing validates the same values as one emitted without, as long as no reference is lost |
| SchemaTheorems.UnsharedMeaning | src/schema.ts:495-499 | emitted without sharing, the document validates exactly what the schema admits, of a union what its kept options admit, whatever the keys |
| SchemaTheorems.OneOfEachKept | src/schema.ts:218-226 | number checks of distinct kinds all survive emission |
| SchemaTheorems.OnePatternKept | src/schema.ts:156-165 | string checks with at most one pattern, without flags, all survive emission |
| SchemaAgreement.Soundness | src/schema.ts:87-92 | what a successful parse returns is JSON and validates against the published document, through strip objects, optionals, nullables, refinements and unions, as long as the printed patterns are checks |
| SchemaAgreement.Completeness | src/schema.ts:87-92 | without refinements and with checks kept, every value the document validates parses |
| SchemaAgreement.Exactness | src/schema.ts:87-92 | if also no object strips, parsing and validation coincide and a parse returns the input unchanged as a map |
| SchemaReferences.RefFreeMeaning | src/schema.ts:579-592 | a published document without references is the unshared one, and validates exactly what the schema admits, whatever its keys and dropped options |
| SchemaReferences.ShiftedPath | src/schema.ts:495-499 | where a kept option stands after others were dropped, and where the path recorded for it leads instead |
| SchemaPublished.DocumentAsParser | src/schema.ts:87-92 | the document validates exactly what the parser of the published schema accepts, and that parser returns it unchanged as a map |
| SchemaPublished.NumbersExactly | src/schema.ts:209-226 | parser and document agree on all numbers exactly when the document admits none or all bounds are met between the printed ones |
| SchemaPublished.TextsExactly | src/schema.ts:148-165 | parser and document agree on all strings, whatever the patterns match, exactly when the document admits none or every pattern is the printed one, without flags |
| SchemaPublished.FlagsExactly | src/schema.ts:148-165 | the document admits all strings the parser accepts, whatever the patterns match, exactly when no length is left or the printed pattern is a check without flags |
| SchemaPublished.DroppedExactly | src/schema.ts:495-499 | a union with a `{}` option, in a document without references: the parser accepts everything, the document exactly what the other options admit |
| SchemaLimits.DroppedOption | src/schema.ts:495-498 | that no option is dropped is needed: a number the parser accepts and the document refuses |
| SchemaLimits.ShiftedReference | src/schema.ts:495-498 | and with a reference to a moved option the document also admits what the parser refuses |
| SchemaLimits.SlashInKey | src/schema.ts:427-433 | that keys mean themselves is needed: an object the parser accepts, and a document that admits nothing |
| SchemaProto.ProtoExactly | src/schema.ts:423-437 | for every object schema with a member called `__proto__`, in any mode: its document validates exactly what the schema without the member admits and, if the member is needed, has it |
| SchemaProto.ProtoAsParser | src/schema.ts:87-92 | the same in terms of the parser of the published schema without the member |
| SchemaProto.ProtoMember | src/schema.ts:423-437 | for every closed object schema with a required member called `__proto__`, whatever its other keys and options: the document admits nothing |
| SchemaProto.ProtoParses | src/schema.ts:405-437 | while the parser accepts an object with such a member |
| SchemaProto.ProtoOptional | src/schema.ts:423-437 | an optional such member, and a later use of the schema under it: the one reference dangles, the document admits nothing, the parser accepts an object without the member |
| SchemaLimits.StripAcceptsMore | src/schema.ts:405-422 | that no object strips is needed for acceptance and validation to coincide |
| SchemaLimits.LostMinimum | src/schema.ts:218-226 | that bounds are kept is needed: `min(5).min(3)` and 4 |
| SchemaLimits.LostPattern | src/schema.ts:156-165 | that patterns are kept is needed: a string matching only the last of two |
| SchemaLimits.LostFlags | src/schema.ts:156-165 | that flags are kept is needed for soundness: a string matching a pattern only with its flag |
| SchemaLimits.Refinement | src/schema.ts:559-570 | that no refinement refuses is needed: a refined boolean and false |
| StructuredClone.Cloner.Walk | src/sandbox.ts:361-366 | copies one value: on success its copy, on failure proof that a symbol or function is reachable; earlier copies and the input are untouched |
| StructuredClone.Cloner.Begin | src/sandbox.ts:367-394 | the empty copy is registered before anything it refers to is copied |
| StructuredClone.Cloner.FillPart | src/sandbox.ts:368-394 | each turn of the loop appends the copy of the next part, never merging two |
| StructuredClone.Cloner.FillEntry | src/sandbox.ts:375-375 | the same for a Map's entries, key before value |
| StructuredClone.Clone | src/sandbox.ts:359-396 | always terminates; succeeds exactly when no symbol or function is reachable; then the result is a clone made of new objects, and the input heap is unchanged |
| StructuredClone.PropertiesKept | src/sandbox.ts:390-393 | assigning the properties of a plain object one by one gives them all exactly when none is called `__proto__` |
| StructuredClone.FollowSame | src/sandbox.ts:359-396 | every path leads somewhere in the clone exactly when it does in the original, to the copy of what it leads to there |
| StructuredClone.SharingSame | src/sandbox.ts:360-366 | two paths meet in the clone exactly when they meet in the original; every object reached is new |
| StructuredClone.ShapeSame | src/sandbox.ts:367-394 | objects reached by one path have the same kind, size, property names and order |
| Utf8.TextEncode | src/sandbox.ts:300-315 | the loop over code units is the encode function |
| Utf8.TextDecode | src/sandbox.ts:325-350 | the loop over bytes is the decode function; flushing every 4096 code points never shows |
| Utf8.DecodeAfterEncode | src/sandbox.ts:300-350 | for every string: itself, with lone surrogates replaced and one leading U+FEFF dropped |
| Utf8.ReadOne | src/sandbox.ts:333-347 | the decoder reads a character exactly where section 4 of RFC 3629 has one, and otherwise consumes one byte as U+FFFD |
| Utf8.EncodeDecoded | src/sandbox.ts:333-347 | writing back what was read grows by two bytes per replaced byte, and is the input when there is none |
| Utf8.EncodeAfterDecode | src/sandbox.ts:300-350 | bytes come back exactly when they are well-formed UTF-8 without a leading byte order mark |
| EventLoop.StepKeeps | src/sandbox.ts:507-681 | every step of guest, host, clock and loop keeps the invariant |
| EventLoop.FirstSettleWins | src/sandbox.ts:507-509 | after any run, what counts is the first value the guest ever reported |
| EventLoop.OutcomeMeaning | src/sandbox.ts:691-733 | a value is returned only if it was the first report, fits, no error came first and the deadline never stopped the run; once interrupted, the outcome is the timeout |
| EventLoop.Decided | src/sandbox.ts:597-729 | how every returned run ends: interrupted, with the timeout; else the host's own failure, else the first error, else the first report decides: JSON within the cap is the value, over it too large, nothing is no value, and the other reports are their failures; without a report, nothing could settle |
| EventLoop.ValueReturned | src/sandbox.ts:597-729 | for every text within the cap a run that reports it returns it |
| EventLoop.AwaitedReturned | src/sandbox.ts:625-729 | a run that awaits one host call, sleeps, is woken by it and then reports a text within the cap returns it; one that does nothing is told that nothing can settle |
| EventLoop.FailuresReturned | src/sandbox.ts:603-676 | a snippet that does not compile ends with its error, past the deadline with the timeout; a failure of the module itself ends with its message |
| EventLoop.SleeperWakes | src/sandbox.ts:484-490 | a sleeping loop has a call in flight whose completion takes this very wait to the next turn, and with a job waiting one is already completing |
| EventLoop.NothingCouldSettle | src/sandbox.ts:641-648 | the complaint that nothing can settle is made only with no job, no call in flight and no report |
| EventLoop.TimedOutWaits | src/sandbox.ts:657-664 | a timed-out run returns only after every call it dispatched has completed |
| EventLoop.ReturnedStays | src/sandbox.ts:555-573 | calls completing after the return touch nothing |
| EventLoop.EveryRunCanEnd | src/sandbox.ts:625-664 | no schedule is a dead end: time and the completion of calls in flight lead every run to its return |
| EventLoop.LateRunReturns | src/sandbox.ts:625-664 | past the deadline a run that has not returned always has an effective step left, and takes no more of them than a computed number, two for each call dispatched on the way added: every fair schedule returns |
| KeyStore.EffectOf | core/src/keystore.ts:194-232 | an edit shows in its own project alone: every other reads as it did |
| KeyStore.EditRead | core/src/keystore.ts:194-232 | field by field what a reader finds after an edit: a saved project's own fields and no other, `tier`, `lease_expires_at` and `expires_at` aside, and `cached_at`, its own if it has one and now otherwise; of an updated one each field as the update has it, else as it was; a removed one is gone |
| KeyStore.FileRead | core/src/keystore.ts:117-166 | and what a reader finds in a file: its projects without the three old fields, of the old array format the last item of that name as imported, of anything else nothing |
| KeyStore.OriginKept | core/src/keystore.ts:168-232 | where and when the cache was imported from survives every edit and the next load, unless it is an empty text |
| KeyStore.DifferentIdsCommute | core/src/keystore.ts:194-232 | edits of different projects commute for every reader |
| KeyStore.Acquire | core/src/keystore.ts:45-69 | against whatever other processes do: entered at the first of 200 tries that makes the directory if all before found it there, ended by any other error, given up when it was there every time |
| KeyStore.Disk.SaveKeyStore | core/src/keystore.ts:168-184 | the temporary file becomes the file and is gone |
| KeyStore.Disk.Call | core/src/keystore.ts:194-232 | one undisturbed call has its whole effect, or none and the lock untouched |
| KeyStoreLock.StepKeeps | core/src/keystore.ts:45-232 | every step of any process keeps the invariant, with crashes anywhere and failures of mkdir, read, write, chmod and rmdir |
| KeyStoreLock.MutualExclusion | core/src/keystore.ts:45-69 | at most one call is between making and removing the lock directory |
| KeyStoreLock.Linearizable | core/src/keystore.ts:194-232 | at every moment the file is the effect of the committed calls in lock order, one whose read failed starting from nothing; each successful call among them exactly once, refused or failed ones not at all |
| KeyStoreLock.RealTime | core/src/keystore.ts:45-69 | a call that returned before another began is before it in that order |
| KeyStoreLock.UpdateKept | core/src/keystore.ts:117-232 | no lost update, exactly: what a commit made of its project, a saved one its fields, is seen by later readers exactly when no later commit wrote after a failed read |
| KeyStoreLock.FailedReadLoses | core/src/keystore.ts:117-123 | a save whose read fails returns normally and every other project is gone |
| KeyStoreLock.LogGrows | core/src/keystore.ts:168-184 | commits are never undone or reordered, so readers see growing prefixes |
| KeyStoreLock.ReaderSees | core/src/keystore.ts:162-192 | an unlocked reader sees for each project what the committed calls made of it, in order, whatever the file was to begin with, the old array format included |
| KeyStoreLock.LockExplained | core/src/keystore.ts:52-66 | the lock is taken only while a call is inside or because one left it behind |
| KeyStoreLock.DroppedStays | core/src/keystore.ts:63-66 | a lock left behind stays, and no later step changes the file |
| KeyStoreLock.Patience | core/src/keystore.ts:45-69 | after any run: a call still trying has tried fewer than 200 times, one that got in at most 200 times, and one that returned without getting in, no error in its way, exactly 200 times |
| KeyStoreLock.CallCanEnd | core/src/keystore.ts:45-232 | from every state within the invariant each call can go on to its return by itself, with at most 206 steps: nobody is ever stuck |
| KeyStoreLock.MayFail | core/src/keystore.ts:45-232 | what can go wrong at any moment, a crash, another error of mkdir, a failure before the rename, is a step, and leaves the file as it is |
| ProfileState.StateFile.SetActiveProjectId | core/src/profile-state.ts:106-129 | the in-place update is the set function, on an empty state when the read fails |
| ProfileState.StateFile.ClearActiveProjectId | core/src/profile-state.ts:131-160 | the in-place update is the clear function, on an empty state when the read fails |
| ProfileState.RunRemembers | core/src/profile-state.ts:106-160 | after any run, failed reads included, a remembered previous project is a real one and never the current one |
| ProfileState.SetAndClearSeen | core/src/profile-state.ts:100-160 | after any run, set is seen by its scope and a cleared project is not, even when reads fail |
| ProfileState.ClearAfterSet | core/src/profile-state.ts:106-160 | exactly when clear undoes set, for the scope itself and for scopes that fall back to the flat selection |
| ProfileState.OwnEntryUnaffected | core/src/profile-state.ts:64-160 | a scope with an entry of its own sees nothing of what other scopes do, exactly when none of their reads failed; otherwise its entry is gone |
| ProfileState.KeysAgree | core/src/profile-state.ts:82-98 | scopes share a key exactly when each of the three parts is the same, a missing API base or profile being the configured one and a missing principal the one named `unknown` |
| EditDistance.EditDistance | src/sandbox-proxy.ts:354-365 | the table, cell by cell, is the recursive optimum |
| EditDistance.NoCheaperScript | src/sandbox-proxy.ts:354-365 | no edit script that makes one string of the other costs less |
| EditDistance.CheapestScript | src/sandbox-proxy.ts:354-365 | some script costs exactly the distance |
| EditDistance.Symmetric | src/sandbox-proxy.ts:354-365 | the distance is symmetric |
| EditDistance.Bounds | src/sandbox-proxy.ts:354-365 | zero exactly on equal strings, at least the length difference, at most the longer length |
| WireCodec.RefusedWhy | src/sandbox-proxy.ts:105-138 | every refusal has its reason within reach; for a cycle, a reachable cycle |
| WireCodec.EncodeExactly | src/sandbox-proxy.ts:105-138 | encoding succeeds exactly when no symbol, function, chain that is the root or not awaited, instance of a class, or object that holds itself is reachable; shared data is accepted |
| WireRoundTrip.LeafBack | src/sandbox-proxy.ts:606-636 | a primitive or handle comes back exactly when it is no minus zero and the handle is known |
| WireRoundTrip.SetBack | src/sandbox-proxy.ts:625-626 | a Set comes back exactly when its members do and stay distinct |
| WireRoundTrip.MapBack | src/sandbox-proxy.ts:623-624 | a Map comes back exactly when its entries do and its keys stay distinct |
| WireRoundTrip.PlainBack | src/sandbox-proxy.ts:609-639 | a plain object comes back exactly when its members do and it neither looks like a tag nor has a `__proto__` key |
| WireRoundTrip.DateBack | src/sandbox-proxy.ts:619-620 | a Date comes back exactly when it is valid |
| WireRoundTrip.BytesBack | src/sandbox-proxy.ts:621-622 | bytes always come back |
| WireRoundTrip.RoundTrip | src/sandbox-proxy.ts:105-641 | whatever is encoded comes back from JSON and decoding exactly when it is clean all the way down |
| WireRoundTrip.ArrivesAs | src/sandbox-proxy.ts:606-636 | what arrives instead: zero for minus zero, the epoch for an invalid date, an error for a handle of another run |
| ManifestLexer.FindStringEnd | astro/src/ssr-determinism.ts:135-141 | the index of the closing quote, or -1 |
| ManifestLexer.FindArrayEnd | astro/src/ssr-determinism.ts:117-132 | the index where the scan returns to depth zero on a `]`, or -1 |
| ManifestLexer.ArrayEndCorrect | astro/src/ssr-determinism.ts:117-132 | for every JSON array text of any nesting, brackets and escaped quotes inside strings included, the scan ends at its own closing bracket whatever follows |
| ManifestBody.SortStringArrayBody | astro/src/ssr-determinism.ts:148-178 | the body with sorted literals in the old places, or null for anything but literals and separators |
| ManifestBody.ScanOk | astro/src/ssr-determinism.ts:148-173 | literals, gaps and tail, put together, are the body |
| ManifestBody.RenderScan | astro/src/ssr-determinism.ts:148-178 | what is put together is taken apart the same |
| ManifestBody.ScanExactly | astro/src/ssr-determinism.ts:148-173 | a body is taken exactly when it is string literals that parse with commas and white space around them, and is taken apart as these |
| ManifestBody.SortIs | astro/src/ssr-determinism.ts:176-176 | the literals come out permuted, so that none stands before one whose string comes first: at the first code unit where two strings differ the smaller one, or the shorter string when one begins the other |
| ManifestBody.SortCanonical | astro/src/ssr-determinism.ts:176-176 | two arrangements of the same literals sort the same when no string is spelled two ways |
| ManifestSort.SortManifestAssets | astro/src/ssr-determinism.ts:53-77 | the cursor loop over anchors, array ends and keys computes the canonical text |
| ManifestSort.Stable | astro/src/ssr-determinism.ts:53-77 | rearranging the literals of the lists leaves everything else found where it was |
| ManifestSort.OnlyLiteralsMove | astro/src/ssr-determinism.ts:53-77 | same length, same text outside the lists, same separators; the literals of each list are permuted |
| ManifestSort.Idempotent | astro/src/ssr-determinism.ts:53-77 | sorting twice is sorting once |
| ManifestSort.CanonicalOutput | astro/src/ssr-determinism.ts:53-77 | texts that differ only by the order of literals come out equal when no string is spelled two ways |
| ManifestSort.CanonicalExactly | astro/src/ssr-determinism.ts:53-77 | and that condition is exact |
| ManifestSort.ManifestFound | astro/src/ssr-determinism.ts:53-64 | where a serialized manifest stands, its list is found, however it is laid out, whatever its scripts hold, whatever follows, and whatever comes before if no anchor begins there |
| PngChecksums.ComputeCrc32 | astro/src/blurhash-decoder.ts:116-125 | the shift-and-xor loops are the CRC function |
| PngChecksums.Crc32IsRemainder | astro/src/blurhash-decoder.ts:116-125 | the CRC is the complement of the one remainder the message leaves on division over GF(2) by the polynomial of section 3.4 of RFC 2083, which is given by its exponents |
| PngChecksums.RemainderUnique | astro/src/blurhash-decoder.ts:116-125 | there is only one quotient and remainder |
| PngChecksums.GeneratorIs | astro/src/blurhash-decoder.ts:124-124 | the reversed constant in the loop is that polynomial without its highest power |
| PngChecksums.ComputeAdler32 | astro/src/blurhash-decoder.ts:127-135 | the running sums equal the closed-form sums modulo 65521 |
| PngChecksums.WeightedIs | astro/src/blurhash-decoder.ts:127-135 | the second sum counts each byte once per position from it to the end |
| PngChecksums.Adler32Is | astro/src/blurhash-decoder.ts:127-135 | the checksum in closed form, with the modulus of section 8.2 of RFC 1950 |
| PngWriter.FilterRows | astro/src/blurhash-decoder.ts:73-83 | the buffer holds every scanline behind a zero filter byte, missing samples as zero |
| PngWriter.WrapZlibUncompressed | astro/src/blurhash-decoder.ts:96-114 | the block loop writes the zlib stream |
| PngWriter.EncodePng | astro/src/blurhash-decoder.ts:57-85 | the file in three chunks |
| PngWriter.ChunkBack | astro/src/blurhash-decoder.ts:87-94 | a chunk is read back with its length and CRC checked |
| PngWriter.ZlibBack | astro/src/blurhash-decoder.ts:96-114 | a stream is read back with LEN, NLEN, the single final block and Adler-32 checked, exactly when there is data |
| PngWriter.PngBack | astro/src/blurhash-decoder.ts:57-114 | a checking decoder, which shares no constant with the writer, recovers width, height and pixels exactly when the image has a pixel |
| PngWriter.PixelsAre | astro/src/blurhash-decoder.ts:73-83 | and these pixels are the given samples, as many as the image needs, missing ones as zero |
| ResultStore.DropExpiredAll | src/result-store.ts:157-164 | stopping at the first unexpired entry leaves no expired one behind |
| ResultStore.LiveExactly | src/result-store.ts:94-164 | what is held is exactly the last 32 stores younger than the time to live |
| ResultStore.LiveAppend | src/result-store.ts:107-115 | evicting and appending keeps the live part of the longer history |
| ResultStore.Store.PruneExpired | src/result-store.ts:157-164 | pruning moves the live part to the new time |
| ResultStore.Store.StoreResult | src/result-store.ts:94-116 | the view is an honest prefix, of 20 items unless another finite number is asked for; the history grows by the result, or by nothing when it is secret |
| ResultStore.Store.ExpandResult | src/result-store.ts:125-139 | a reference expands exactly when it is among the last 32 stores and live, to the asked window |
| ResultStore.WindowIs | src/result-store.ts:125-183 | the window asked for: from the start and of 100 items unless other finite numbers are given, of one to 1000 items, cut at the end of the list |
| ResultStore.WindowsTile | src/result-store.ts:125-183 | successive windows of any sizes are consecutive parts of the list and reach its end |
| RpcFraming.TextContinues | src/mcp-server.ts:186-194 | later text continues the unfinished line |
| RpcFraming.RepliesExactly | src/mcp-server.ts:92-183 | a notification gets no response; a request exactly one, with its own id, except when a tool's call came to nothing that can be sent: a validation threw, or what the handler came to cannot be written |
| RpcFraming.ReplyIs | src/mcp-server.ts:92-127 | which reply: -32600 for what is no request and carries no result, -32601 for a method there is not, and the results of `initialize`, with the version asked for if it is one of the four and the newest otherwise, `ping` and `tools/list` |
| RpcFraming.CallReplyIs | src/mcp-server.ts:129-157 | which result a tool call gets: the text for a tool that is not there, its schema's refusal of the arguments, the message thrown, the complaint about missing or refused content, or the handler's result as it is |
| RpcFraming.Listener.Data | src/mcp-server.ts:184-194 | after any chunk, the lines dispatched are those of all text received |
| RpcFraming.Listener.End | src/mcp-server.ts:195-201 | the unterminated line is dispatched and everything in flight is awaited |
| RpcFraming.Listener.Write | src/mcp-server.ts:165-183 | however the handler ran, exactly the replies due to the message are added to the output |
| RpcFraming.Listener.Resolved | src/mcp-server.ts:163-202 | resolution means every line of the text was dispatched and finished, each request answered exactly once with its id outside the one exception, each notification not at all |
| RpcFraming.Listen | src/mcp-server.ts:163-202 | however the text is cut into chunks, the same lines are dispatched |
| RpcFraming.LinesBack | src/mcp-server.ts:184-201 | messages written one to a line, ended by a newline with or without a carriage return, the last one perhaps not at all, are dispatched as written, blank ones left out |
| BatchSigning.SignAssetRefs | astro/src/manifest.ts:240-283 | with a signer that answers item by item, the result is that of signing each reference on its own, errors included, in whatever order the batches settle |
| BatchSigning.SignBatches | astro/src/manifest.ts:251-261 | the first rejection or wrong count to arrive, or all answers in the order of the list |
| BatchSigning.ChunksAre | astro/src/manifest.ts:251-252 | the batches, put together, are the list; none is empty or has more than 1000 items, and all but the last have 1000 |
| BatchSigning.AnyFailure | astro/src/manifest.ts:253-259 | the batches fail exactly when the signer refuses one or answers it with another number of items, whatever the order they settle in; which failure is reported depends on it, and it may be that of any failing batch |
| BatchSigning.BatchesPointwise | astro/src/manifest.ts:251-261 | cutting into chunks changes no answer, whatever the order of arrival |
| BatchSigning.EachFails | astro/src/manifest.ts:262-267 | signing one by one fails exactly at the first refused item of the whole list |
| BatchSigning.HandOut | astro/src/manifest.ts:268-282 | the running cursor gives each reference its own share of the URLs and uses up the list |
| BatchSigning.ShareSigns | astro/src/manifest.ts:268-282 | and that share is what signing each reference alone gives |
| BatchSigning.SignRefIs | astro/src/manifest.ts:240-283 | a reference is signed exactly when the signer has a URL for the original and every variant; then each URL field holds the one of its own item, the display URL that of the display JPEG if there is one, and no immutable URL is left; otherwise the foremost item without a URL is named |
| BatchSigning.ItemsAre | astro/src/manifest.ts:245-250 | what is asked for a reference: its original, then the variants it has in the fixed order, each once |

## Left out

- The meaning of documents with a union all of whose options emit `{}` or nothing, which emits nothing itself; `$ref` paths over keys with a `%`, whose decoding in a fragment is not modelled.
- The state of a global or sticky pattern, whose test begins where its last one ended.
- Schema inputs that are not JSON values: NaN, infinities, functions, class instances and sparse arrays; the issue messages' wording; the `$schema` line of the document.
- `closestMembers`: the ranking around the edit distance, which sorts by a locale's order.
- `structuredClone` of typed arrays, DataViews and Errors; a leaf here is a Date, RegExp or ArrayBuffer, and property values are read without getters.
- StructuredClone.Clone: asks for a graph without a `__proto__` property, whose assignment sets a prototype in place of a member; StructuredClone.PropertiesKept says what becomes of an object with one, and prototypes are not modelled.
- Sparse arrays, whose holes cross the wire as null, and the chain proxy's paths in error messages, property refusals, call records and result encoding; numbers print and parse back exactly.
- WireRoundTrip.RoundTrip: speaks of the tree a value unfolds to, as sharing does not survive the wire; a map payload no encoder writes decodes to an unspecified value that is no plain object.
- QuickJS itself, the snippet's preparation, console logs, memory limits and the wording of thrown errors; a guest entry is any dispatching, reporting and job count.
- KeyStore.EffectOf: ids that name a property of `Object.prototype`, such as `constructor` or `__proto__`, which a lookup finds without any project being saved; ids here are looked up in the saved projects alone.
- The legacy import into the key cache, which runs outside the lock; directories, permissions and the active-project fields an old file may carry. A field of a project is a text or absent.
- Selected organizations and migration markers of the profile state; its file is locked by the same protocol as the key cache.
- Regular expressions and `JSON.parse` of one literal in the manifest sort: the two patterns are matched by their own matcher, and the parse is a parameter. Walking the output directory is not modelled.
- The blurhash transform and the data URI. Image sizes and the compressed length must fit 32 bits, as the buffer writes demand.
- The content of the RPC server's tool listing and the capabilities in its `initialize` result; JSON decoding, the tools' schemas and handlers: whether arguments and results satisfy them, and how a handler ends, are inputs; UTF-8 decoding of its input.
