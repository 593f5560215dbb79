# Exhibitor servlet bootstrap, modelled in Dafny

This project models `ExhibitorServletContextListener`, the servlet listener in
Exhibitor's standalone web application. The listener starts and stops an
Exhibitor (the ZooKeeper supervisor) inside a servlet container.

- **contextInitialized** has four steps:
  - It merges two property sources into one argument map. The first is the
    bundled `exhibitor.properties` resource, loaded with the system properties
    as its defaults. The second is the system properties, applied on top.
  - It turns every `exhibitor-<name>` property into a `-<name>` argument and
    flattens the map into an argument array.
  - It hands that array to the `ExhibitorCreator`.
  - It decorates the creator's `ExhibitorArguments.Builder` with an HTTP basic
    or digest authentication filter, parsed from a `type:base64(user:pass)`
    spec. Then it constructs and starts the Exhibitor and publishes it in the
    servlet context.
- **contextDestroyed** closes the Exhibitor quietly and clears the field. It
  then closes every closeable the creator registered, each one quietly.

Modules:

- `Wrappers` holds `Option` and `Result`.
- `JavaStrings` holds the Java string operations the listener depends on:
  - `String.split(":")`, including its rules for trailing empty fields and for
    a string with no separator;
  - `String.trim`;
  - `startsWith`.
- `Arguments` models `applyProperties`, `makeArgsBuilder` and `toArgsArray`. It
  includes `java.util.Properties` with a defaults table.
  - Each HashMap or Properties enumeration is an arbitrary choice from the keys
    still pending. A ghost sequence records the order taken.
  - The argument maps are proved to be the same for every order. So are the
    argument array's length and the map it reads back as. The array itself
    (`ToArgsArray`, and so the `argv` given to the creator) follows the order.
- `RemoteAuth` models `addRemoteAuth` as a function returning either the
  builder or the exception it throws.
- `Lifecycle` models the listener as a class, and the servlet context as a
  class.
  - The class has the listener's two fields, `exhibitor` and
    `exhibitorCreator`.
  - Its methods `ContextInitialized` and `ContextDestroyed` update those
    fields. A ghost trace of the calls made on collaborators (`start`,
    `closeQuietly`) records their effects.
  - Both methods are specified against the functions `Initialization` and
    `TeardownCalls`. Lemmas prove properties of those functions.

The collaborators are parameters of an `Environment`:

- the resource and the system properties;
- the creator;
- Base64 decoding;
- the Exhibitor constructor and its `start`.

Whether each `close` throws is the `throws` argument of `ContextDestroyed`
(and of `TeardownCalls`).

Behaviour of the code worth noting:

- contextDestroyed clears `exhibitor` but leaves `exhibitorCreator` set, so a
  second teardown closes the closeables again (`RepeatedTeardown`).
- The decoded credentials are not required to have exactly two fields. Fields
  after the second are ignored (`ExtraCredentialFieldsIgnored`). With fewer
  than two, indexing throws an `ArrayIndexOutOfBoundsException`
  (`MissingCredentialField`), which the catch-all arm turns into a
  `RuntimeException`.
- When `properties.load` fails, nothing from the file reaches the arguments.
  The `Properties` object is discarded before `applyProperties` runs.
- Nothing guards against a second `start`. Each call to contextInitialized
  whose creator, remote-auth parse and Exhibitor construction all succeed
  starts a newly constructed Exhibitor, whatever ran before
  (`FailureKeepsAssignedFields`).

## Model

Source paths are relative to the repository root. Every row cites
`exhibitor-standalone/src/main/java/com/netflix/exhibitor/servlet/ExhibitorServletContextListener.java`.

| member | source | states |
|---|---|---|
| JavaStrings.TrimStart | exhibitor-standalone/src/main/java/com/netflix/exhibitor/servlet/ExhibitorServletContextListener.java:181 | the result is a suffix of the input; every removed character is `<= ' '`; the result does not start with one |
| JavaStrings.TrimEnd | exhibitor-standalone/src/main/java/com/netflix/exhibitor/servlet/ExhibitorServletContextListener.java:181 | the result is a prefix of the input; every removed character is `<= ' '`; the result does not end with one |
| JavaStrings.Trim | exhibitor-standalone/src/main/java/com/netflix/exhibitor/servlet/ExhibitorServletContextListener.java:181 | `trim()` is a contiguous piece of the input with only characters `<= ' '` around it, and it has no such character at either end |
| JavaStrings.TrimOfTrimmed | exhibitor-standalone/src/main/java/com/netflix/exhibitor/servlet/ExhibitorServletContextListener.java:185-186 | trimming a string with clean ends returns it unchanged |
| JavaStrings.TrimIdempotent | exhibitor-standalone/src/main/java/com/netflix/exhibitor/servlet/ExhibitorServletContextListener.java:185-186 | trimming twice is the same as trimming once |
| JavaStrings.SplitAll | exhibitor-standalone/src/main/java/com/netflix/exhibitor/servlet/ExhibitorServletContextListener.java:178 | splitting at every ':' gives at least one field, and no field contains ':' |
| JavaStrings.DropTrailingEmpty | exhibitor-standalone/src/main/java/com/netflix/exhibitor/servlet/ExhibitorServletContextListener.java:178 | removes exactly the trailing empty fields: what is left is a prefix, everything removed is empty, and the last field kept is non-empty |
| JavaStrings.Split | exhibitor-standalone/src/main/java/com/netflix/exhibitor/servlet/ExhibitorServletContextListener.java:178 | `split(":")` yields fields free of ':'; once the string contains ':', the result is empty or ends in a non-empty field |
| JavaStrings.JoinSplitAll | exhibitor-standalone/src/main/java/com/netflix/exhibitor/servlet/ExhibitorServletContextListener.java:178 | joining the fields with ':' gives back the original string |
| JavaStrings.SplitAllJoin | exhibitor-standalone/src/main/java/com/netflix/exhibitor/servlet/ExhibitorServletContextListener.java:178 | splitting fields that were joined with ':' gives back the fields |
| JavaStrings.SplitOfPair | exhibitor-standalone/src/main/java/com/netflix/exhibitor/servlet/ExhibitorServletContextListener.java:178-179 | `a:b`, followed by any run of colons, splits into exactly `[a, b]` when b is non-empty |
| JavaStrings.SplitPairShape | exhibitor-standalone/src/main/java/com/netflix/exhibitor/servlet/ExhibitorServletContextListener.java:178-179 | a string that passes the two-part check is exactly its two parts joined by ':', then some trailing colons |
| JavaStrings.SplitNoColon | exhibitor-standalone/src/main/java/com/netflix/exhibitor/servlet/ExhibitorServletContextListener.java:178-179 | a string without ':' splits into itself alone |
| JavaStrings.SplitExtraFields | exhibitor-standalone/src/main/java/com/netflix/exhibitor/servlet/ExhibitorServletContextListener.java:183-186 | fields after the second do not change the first two, provided something other than trailing empty fields follows the first |
| Arguments.ArgNameRoundTrip | exhibitor-standalone/src/main/java/com/netflix/exhibitor/servlet/ExhibitorServletContextListener.java:165-168 | the `-<suffix>` argument of a prefixed name maps back to that property name |
| Arguments.PropertyNameRoundTrip | exhibitor-standalone/src/main/java/com/netflix/exhibitor/servlet/ExhibitorServletContextListener.java:165-168 | every `-<suffix>` argument name comes from exactly the property `exhibitor-<suffix>` |
| Arguments.ArgNameInjective | exhibitor-standalone/src/main/java/com/netflix/exhibitor/servlet/ExhibitorServletContextListener.java:168-169 | two different prefixed properties never write the same argument |
| Arguments.TranslationSpec | exhibitor-standalone/src/main/java/com/netflix/exhibitor/servlet/ExhibitorServletContextListener.java:159-174 | each prefixed property yields its argument with `getProperty`'s value (own entry, else the default); the keys are exactly the argument names of prefixed properties |
| Arguments.ApplyAllSpec | exhibitor-standalone/src/main/java/com/netflix/exhibitor/servlet/ExhibitorServletContextListener.java:161-172 | for any enumeration order: every prefixed name gets its argument and value; nothing else is added; every existing key it does not write keeps its value |
| Arguments.ApplyAllTranslate | exhibitor-standalone/src/main/java/com/netflix/exhibitor/servlet/ExhibitorServletContextListener.java:161-172 | every order that enumerates each property name gives the same map: the old map overridden by the translation |
| Arguments.ApplyProperties | exhibitor-standalone/src/main/java/com/netflix/exhibitor/servlet/ExhibitorServletContextListener.java:159-174 | the loop visits every property name, including the defaults' names, and leaves the map as the old map overridden by the translation of the whole property bag |
| Arguments.MakeArgsBuilder | exhibitor-standalone/src/main/java/com/netflix/exhibitor/servlet/ExhibitorServletContextListener.java:126-157 | the result is the file's translation (file entries over system defaults, only when loaded) overridden by the system properties' translation; a missing or unreadable resource contributes nothing |
| Arguments.ArgsPrecedence | exhibitor-standalone/src/main/java/com/netflix/exhibitor/servlet/ExhibitorServletContextListener.java:136-154 | an argument exists iff its property is in the system or in the loaded file; the system value wins; otherwise the file's value is used |
| Arguments.MergedKeys | exhibitor-standalone/src/main/java/com/netflix/exhibitor/servlet/ExhibitorServletContextListener.java:126-157 | the merged keys are exactly the `-<suffix>` names whose `exhibitor-<suffix>` is in the system or the loaded file |
| Arguments.NoResourceSystemOnly | exhibitor-standalone/src/main/java/com/netflix/exhibitor/servlet/ExhibitorServletContextListener.java:145-154 | with the resource missing or unreadable, the arguments are exactly the translated system properties |
| Arguments.RemoteAuthLookup | exhibitor-standalone/src/main/java/com/netflix/exhibitor/servlet/ExhibitorServletContextListener.java:69 | `argsBuilder.get("--" + option)` finds a value iff property `exhibitor--<option>` is set in the system or the loaded file; the system's value wins, otherwise the file's value is found |
| Arguments.OverrideExample | exhibitor-standalone/src/main/java/com/netflix/exhibitor/servlet/ExhibitorServletContextListener.java:136-154 | file `exhibitor-x=1` and system `exhibitor-x=2` give exactly `{-x: 2}` |
| Arguments.Flatten | exhibitor-standalone/src/main/java/com/netflix/exhibitor/servlet/ExhibitorServletContextListener.java:116-123 | two array elements per key visited |
| Arguments.FlattenAt | exhibitor-standalone/src/main/java/com/netflix/exhibitor/servlet/ExhibitorServletContextListener.java:117-121 | element 2i is the i-th key and element 2i+1 its value |
| Arguments.FlattenPairs | exhibitor-standalone/src/main/java/com/netflix/exhibitor/servlet/ExhibitorServletContextListener.java:114-124 | read back as key/value pairs, the array is the map restricted to the keys visited |
| Arguments.OrderingSize | exhibitor-standalone/src/main/java/com/netflix/exhibitor/servlet/ExhibitorServletContextListener.java:117 | an entry-set iteration that visits every key once has as many steps as the map has keys |
| Arguments.FlattenOrdering | exhibitor-standalone/src/main/java/com/netflix/exhibitor/servlet/ExhibitorServletContextListener.java:114-124 | flattening along a full iteration gives 2·size elements that read back as the whole map |
| Arguments.ToArgsArray | exhibitor-standalone/src/main/java/com/netflix/exhibitor/servlet/ExhibitorServletContextListener.java:114-124 | visits every key once, yields key, value, key, value, … of length 2·size, and the array reads back as exactly the map |
| RemoteAuth.Credentials | exhibitor-standalone/src/main/java/com/netflix/exhibitor/servlet/ExhibitorServletContextListener.java:183-186 | succeeds iff the decoded text splits into at least two fields, giving the trimmed first two; otherwise reports the missing index |
| RemoteAuth.AddRemoteAuth | exhibitor-standalone/src/main/java/com/netflix/exhibitor/servlet/ExhibitorServletContextListener.java:176-199 | null or empty spec leaves the builder untouched; a spec not splitting into two parts throws the argument check; a success is the builder unchanged or with only its remote configuration replaced by a single filter |
| RemoteAuth.AddRemoteAuthWellFormed | exhibitor-standalone/src/main/java/com/netflix/exhibitor/servlet/ExhibitorServletContextListener.java:178-196 | the full outcome of a two-part spec: the missing credential index, or the basic, digest or no filter chosen by the trimmed type, with the trimmed credentials |
| RemoteAuth.AddRemoteAuthRoundTrip | exhibitor-standalone/src/main/java/com/netflix/exhibitor/servlet/ExhibitorServletContextListener.java:176-199 | a spec `type:token` whose token decodes to `user:password` installs the type's filter with exactly that user and password |
| RemoteAuth.ExtraCredentialFieldsIgnored | exhibitor-standalone/src/main/java/com/netflix/exhibitor/servlet/ExhibitorServletContextListener.java:183-186 | `user:password:rest` yields credentials (user, password), including an empty password when the rest holds a character other than ':' |
| RemoteAuth.SingleCredentialFieldThrows | exhibitor-standalone/src/main/java/com/netflix/exhibitor/servlet/ExhibitorServletContextListener.java:183-186 | a token decoding to text without ':' throws on `authParts[1]` |
| RemoteAuth.UnknownTypeIgnored | exhibitor-standalone/src/main/java/com/netflix/exhibitor/servlet/ExhibitorServletContextListener.java:194-198 | a type other than basic or digest, with valid credentials, returns the builder unchanged |
| RemoteAuth.AddRemoteAuthIdempotent | exhibitor-standalone/src/main/java/com/netflix/exhibitor/servlet/ExhibitorServletContextListener.java:188-193 | applying the same spec to the decorated builder changes nothing more |
| RemoteAuth.NoColonRejected | exhibitor-standalone/src/main/java/com/netflix/exhibitor/servlet/ExhibitorServletContextListener.java:178-179 | a non-empty spec without ':' fails the two-part check |
| RemoteAuth.EmptyTokenRejected | exhibitor-standalone/src/main/java/com/netflix/exhibitor/servlet/ExhibitorServletContextListener.java:178-179 | `type:` loses its trailing empty field and fails the two-part check |
| Lifecycle.CloseAllSpec | exhibitor-standalone/src/main/java/com/netflix/exhibitor/servlet/ExhibitorServletContextListener.java:107-110 | one quiet close per closeable, in registration order, each recording whether it threw |
| Lifecycle.TeardownAttemptsAll | exhibitor-standalone/src/main/java/com/netflix/exhibitor/servlet/ExhibitorServletContextListener.java:96-112 | teardown closes every target (the Exhibitor, then each closeable) exactly once and in order; a throwing close does not stop the next |
| Lifecycle.TeardownIdle | exhibitor-standalone/src/main/java/com/netflix/exhibitor/servlet/ExhibitorServletContextListener.java:99-105 | with both fields null, teardown makes no call |
| Lifecycle.TeardownSplit | exhibitor-standalone/src/main/java/com/netflix/exhibitor/servlet/ExhibitorServletContextListener.java:96-112 | teardown is the Exhibitor's close followed by the creator's closes |
| Lifecycle.RepeatedTeardown | exhibitor-standalone/src/main/java/com/netflix/exhibitor/servlet/ExhibitorServletContextListener.java:102-111 | a second teardown only closes closeables, never the Exhibitor again |
| Lifecycle.PublishedOnlyAfterStart | exhibitor-standalone/src/main/java/com/netflix/exhibitor/servlet/ExhibitorServletContextListener.java:67-72 | the Exhibitor is published iff initialisation returns normally, and then only after its start() returned normally; that Exhibitor is the one stored in the field |
| Lifecycle.FailureKeepsAssignedFields | exhibitor-standalone/src/main/java/com/netflix/exhibitor/servlet/ExhibitorServletContextListener.java:65-93 | a throw publishes nothing; a creator failure rethrows its cause and leaves both fields untouched; once created, the creator is stored; start is called, exactly once, iff the creator, the remote-auth parse and the construction all succeed; the field changes only then, to the Exhibitor started |
| Lifecycle.TeardownAfterFailedInit | exhibitor-standalone/src/main/java/com/netflix/exhibitor/servlet/ExhibitorServletContextListener.java:65-112 | after a failed first initialisation, teardown closes the constructed Exhibitor (whose start failed) and, if the creator exists, every closeable it registered |
| Lifecycle.ExhibitorServletContextListener.ContextInitialized | exhibitor-standalone/src/main/java/com/netflix/exhibitor/servlet/ExhibitorServletContextListener.java:60-94 | the creator gets an array of 2·size elements that reads back as the merged arguments; the fields, calls, outcome and servlet-context attribute are exactly those of the try/catch structure |
| Lifecycle.ExhibitorServletContextListener.CreateAndStart | exhibitor-standalone/src/main/java/com/netflix/exhibitor/servlet/ExhibitorServletContextListener.java:65-93 | creation, decoration, construction, start and publication in source order, each failure ending the block with its RuntimeException |
| Lifecycle.ExhibitorServletContextListener.ContextDestroyed | exhibitor-standalone/src/main/java/com/netflix/exhibitor/servlet/ExhibitorServletContextListener.java:96-112 | clears the Exhibitor, keeps the creator, and appends exactly the teardown calls of the old field values |

## Left out

- Opening and reading `exhibitor.properties` (`Resources.getResource`, `openStream`, `Properties.load`) is not modelled. Its outcome is a parameter: missing, unreadable, or the parsed entries. The properties-file syntax is not modelled.
- Logging (`log.info`, `warn`, `error`) and `ExhibitorCLI.logHelp` are not modelled. They have no effect on state.
- Base64 decoding is a function parameter (`decode`). The platform charset of `new String(byte[])` is folded into it. A freshly constructed `String` is never null, so the `checkNotNull` never fires and is not modelled.
- The value of `ExhibitorCLI.REMOTE_CLIENT_AUTHORIZATION` is a parameter. `ExhibitorCLI` is not part of this model.
- The internals of `ExhibitorCreator`, of the `Exhibitor` constructor and of `start()` are not modelled. Only their results and exceptions are, through `Environment`. The constructor's null second argument is not represented.
- `ExhibitorArguments.Builder.build()` is the field copy `Build` and never throws. A throwing `build()` would leave the fields exactly as a failing `newExhibitor` does: the creator stored, the Exhibitor unchanged, and no call.
- The Jersey filters `HTTPBasicAuthFilter` and `HTTPDigestAuthFilter` are plain values holding the user name and password. Their internals are not modelled.
- ServletContextEvent plumbing is not modelled. The servlet context is a class holding only its attribute map.
- `volatile` fields and concurrent access to the listener are not modelled. Calls are modelled as sequential.
- Non-String property keys and values are not modelled. `String.valueOf` on a non-String name, and `getProperty` returning null for a non-String value, are therefore absent.
- `closeQuietly` records whether each close threw an IOException. A RuntimeException escaping from `close` is not modelled.
- The builder is mutated in place in the source, and the creator keeps the same builder object. The model passes the builder as a value, so the creator stored in the field still holds the undecorated builder.
- Arguments.ToArgsArray: the `String[]` is modelled as a sequence.
- Java strings are UTF-16 code-unit sequences; Dafny `char` is used in their place.
- The iteration order of `HashMap` and `Properties` is an arbitrary choice, recorded as a ghost sequence. The model does not fix the JDK's actual order.
