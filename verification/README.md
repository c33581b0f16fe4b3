# S3 watcher change detection — a Dafny model

This project models the core of a Node-RED package that connects flows to an
Amazon S3 bucket (`aws.js`):

- the **"amazon s3 in"** node (`AmazonS3InNode`). It lists the bucket once at
  start-up to get a baseline. On every tick (every 15 minutes, or when a
  message arrives) it lists the bucket again, filters the keys with the
  configured glob pattern (`filterContents`), and compares them with the
  stored key list. It sends an `add` message for every new key and a
  `delete` message for every vanished key, then stores the new keys;
- the request-building part of the **"amazon s3 put"** node
  (`AmazonS3OutNode`'s input handler). It resolves each parameter from the
  node configuration first and the message second, rejects an empty bucket or
  file name, and assembles the `putObject` settings.

Modules, one per concept:

| file | module | models |
|---|---|---|
| `values.dfy` | `JsValues` | undefined-or-string values, JavaScript truthiness and `a \|\| b` |
| `paths.dfy` | `Paths` | `lastIndexOf('/')` and the `file` field derived from a key |
| `listing.dfy` | `Listing` | listing entries, key lists, `filterContents` |
| `diff.dfy` | `Diff` | the scan over a new listing and the messages it sends |
| `watcher.dfy` | `Watcher` | the watcher's lifecycle: `Start` (baseline) and `Tick` |
| `put.dfy` | `Put` | parameter resolution, validation, data-URI stripping, `putObject` settings |

Design decisions:

- The glob matcher (`minimatch`) is an external library. Every filter
  function takes it as a parameter `matches: (string, string) -> bool`, so
  the properties hold for any matcher.
- `listObjects` results are inputs (`Listed(contents)` or `Failed`). SDK
  availability (credentials present) is the boolean `sdkAvailable`.
- The model deliberately leaves the order of the `delete` messages open.
  `Diff.Scan` returns the deleted keys as a set, and `Diff.EmitDeletes` sends
  them in an order chosen by `:|`. Its contract therefore holds for every
  order, including the one a JavaScript engine's `for ... in` over `seen`
  actually produces (aws.js:80).
- Events are fresh records. An `Add` carries its listing entry as `data`.
  `Delete` has no `data` field, and nothing is claimed about the `data` of the
  reused message object the source sends.
- The put node's `bucket` and each message field are `Option<string>`, with
  `None` for undefined. Only `Some("")` is rejected, as in the code
  (`=== ""`). An undefined bucket or file name passes through to the request.
- In the code, a local-file upload (`aws.js:220-234`) sets only `Bucket`, `Key`,
  `ACL` and `Body`. `ContentEncoding` and `ContentType` are added only in the
  payload branch. The model follows the code.
- A failed baseline listing leaves the node inert. The callback returns at
  aws.js:47, before the input handler (aws.js:52) and the interval
  (aws.js:92) are installed. `Watcher.Inert` models this, and `Tick` on an
  inert watcher does nothing.

## Model

| member | source | states |
|---|---|---|
| `JsValues.Truthy` | aws.js:216 | the falsy undefined-or-string values are exactly undefined and `""`, as in the tests `if (acl)`, `if (localFilename)`, `if (contentEncoding)` and `if (contentType)` (aws.js:216, 220, 238, 251) |
| `JsValues.Or` | aws.js:194-200 | `a \|\| b` is `a` when `a` is truthy and `b` otherwise, and it is truthy iff either operand is |
| `Paths.LastIndexOf` | aws.js:74 | the result is -1 or a position holding the character, and no later position holds it |
| `Paths.Basename` | aws.js:73-74 | the file name is a suffix of the key without any '/', and it is either the whole key or preceded by '/' |
| `Paths.BasenameOfFlatKey` | aws.js:83 | a key without '/' is its own file name |
| `Paths.BasenameOfNestedKey` | aws.js:74 | the file name of `dir/name` is `name` |
| `Listing.Keys` | aws.js:50 | the stored key list has one key per entry, position by position |
| `Listing.ElementsOfKeys` | aws.js:89 | the stored key list holds exactly the keys of the filtered listing |
| `Listing.KeepMatching` | aws.js:106-107 | an entry survives iff it matches the pattern, and a matching entry survives with its multiplicity |
| `Listing.FilterContents` | aws.js:104-109 | with no pattern the listing is returned unchanged; otherwise exactly the matching entries are kept |
| `Listing.KeepMatchingAppend` | aws.js:106-107 | filtering preserves order: it distributes over concatenation |
| `Listing.KeepMatchingUnique` | aws.js:106-107 | filtering a listing with unique keys gives a listing with unique keys |
| `Diff.Scan` | aws.js:68-79 | the keys left in `seen` are exactly the known keys not listed; every added entry is listed; every listed entry with an unknown key is added |
| `Diff.DiffKeys` | aws.js:62-79 | `seen` is built from the stored key list; the remaining keys are exactly the stored keys not listed; every listed entry with an unstored key is added, and only listed entries are |
| `Diff.ScanIsReference` | aws.js:62-88 | for unique keys, the additions are exactly the entries with unknown keys in listing order, and the deletions are exactly the known keys no longer listed |
| `Diff.NewEntriesIgnoresUnlisted` | aws.js:70-71 | removing an unlisted key from `seen` does not change the additions |
| `Diff.NewEntriesExactlyOnce` | aws.js:68-79 | each listed key absent before is added exactly once, and no other entry is added |
| `Diff.NothingNewWhenAllKnown` | aws.js:68-72 | a listing whose keys are all known adds nothing |
| `Diff.SameKeysNoChanges` | aws.js:65-88 | for a listing with unique keys, diffing a key list against a listing with the same keys reports no change |
| `Diff.AddEvent` | aws.js:73-76 | an `add` message carries the bucket, the key, the entry as `data`, and as `file` the part of the key after its last '/' |
| `Diff.DeleteEvent` | aws.js:82-84 | a `delete` message carries the bucket, the key, and as `file` the part of the key after its last '/' |
| `Diff.SendAnother` | aws.js:80-87 | sending one more key that was not yet sent keeps every key sent exactly once |
| `Diff.EmitDeletes` | aws.js:80-88 | every remaining key is sent exactly once as a `delete` carrying its file name, in any order |
| `Diff.Emit` | aws.js:68-88 | all `add` messages come first, in listing order, followed by one `delete` per remaining key |
| `Diff.ScenarioAddAndDelete` | aws.js:62-88 | state `{a.txt, b.txt}` against listing `[b.txt, c.txt]` adds `c.txt` and deletes `a.txt` |
| `Watcher.SnapshotKeys` | aws.js:49-50 | the stored keys are the listing's keys when no pattern is set; in every case they are exactly the keys of the filtered listing, and they all match the pattern |
| `Watcher.Start` | aws.js:35-51 | the node watches iff the SDK is available and the baseline listing succeeds, and its state then holds the filtered baseline keys |
| `Watcher.Tick` | aws.js:52-89 | an inert node or a failed listing changes nothing and reports nothing; a successful listing replaces the state with the filtered keys; only stored keys are deleted; keys stay within the pattern |
| `Watcher.Check` | aws.js:52-90 | the input handler stores the tick's next state and sends exactly the tick's changes: the additions in listing order, then one `delete` per vanished key, each exactly once; it sends nothing when the node is inert or the listing fails, and every message carries the watched bucket |
| `Watcher.TickReportsExactChanges` | aws.js:61-89 | for a listing with unique keys, a tick adds exactly the new filtered entries in listing order, and deletes exactly the stored keys that are no longer listed |
| `Watcher.NoDoubleReporting` | aws.js:61-89 | for a listing with unique keys, a second tick on an unchanged listing reports nothing |
| `Watcher.BaselineIsolation` | aws.js:54-58 | after a failed tick, the next tick behaves exactly as if the failure had not happened |
| `Watcher.ScenarioFailedPollThenAdd` | aws.js:43-89 | baseline `[x]`, a failed poll, then `[x, y]`: only the last poll reports, adding `y` |
| `Put.WordRun` | aws.js:244 | the length of the leading run of `\w` characters |
| `Put.OnlyPrefixLength` | aws.js:244 | after `data:image/`, only one prefix length can match |
| `Put.StripDataUri` | aws.js:243-244 | the result is a suffix of the payload; it is shorter exactly when a `data:image/<word>;base64,` prefix is present, and that prefix is the one removed |
| `Put.StripDataUriRoundTrip` | aws.js:244 | a prefixed payload strips back to the original data |
| `Put.HandleInput` | aws.js:194-253 | a resolved bucket or file name of `""` is rejected before any request; an upload uses the resolved bucket and key; `ACL`, `ContentEncoding` and `ContentType` are present only when truthy; the body is the file stream, the payload, or the stripped base64 payload |
| `Put.UndefinedTargetIsNotRejected` | aws.js:202-209 | an undefined bucket and file name are not rejected |
| `Put.NodeTargetOverridesMessage` | aws.js:194-196 | a configured bucket and file name make the message's values irrelevant |

## Left out

- The `aws-sdk` calls (`listObjects`, `getObject`, `putObject`) and the credential set-up in `AWSNode` (aws.js:6-17) are foreign network and library code. Their results are inputs to the model.
- `minimatch` glob semantics are an external library. The model uses an arbitrary matcher, so the glob dialect is not modelled.
- The `setInterval`/`clearInterval` timing and the `close` handler (aws.js:92-99) are timer plumbing. A tick is one call of `Watcher.Tick`.
- Node-RED registration, `node.status`, `RED._` message texts and `node.warn`/`node.error` are framework and UI concerns.
- The "amazon s3 get" node (aws.js:111-162) is a one-shot request wrapper outside the change-detection core.
- The put node's start-up `listObjects` credential check (aws.js:185-192) is left out. It gates whether the input handler is installed, in the same way as the watcher's baseline.
- `fs.createReadStream`, `Buffer` base64 decoding and `RED.util.ensureBuffer` are I/O and byte conversion. Bodies are kept symbolic (`FileStream`, `Bytes`, `Base64`).
- Put payloads that are not strings are left out, including the `TypeError` that `.replace` throws on them when `isBase64` is set.
- JavaScript object-as-map quirks of `seen` are left out. For example, a key named `constructor` reads as truthy on an empty object. `seen` is modelled as a `set<string>`.
- Reuse of one `msg` object across `node.send` calls is a framework concern. In particular, the stale `data` on deletes is not modelled.
- Diff.Scan: with duplicate keys in one listing (S3 never produces them), the scan is modelled faithfully. The exact-once and listing-order properties are proved only for unique keys.
