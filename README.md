# mt-github-webhook in Dafny

A model of `MT\GitHub\Webhook` and `MT\GitHub\WebhookPushHandler`. This PHP library receives GitHub push webhooks. It folds the commits of a push into one path → kind change set. It scopes that set to a repository folder. It then lists the changes, or replicates them into a local directory: removed files are deleted, and added or modified files are downloaded from `raw.githubusercontent.com`, with a comment optionally injected into PHP, CSS and JS files.

Modules, leaf first:

- `Wrappers`: the `Option` datatype, for PHP `null` or absent values.
- `PhpStrings`: PHP string truthiness (`""` and `"0"` are false), prefix and suffix tests, and ASCII `strtolower`.
- `ChangeSets`: the change set as an ordered, key-unique `seq<(string, Kind)>` (a PHP associative array). It holds the fold of the commits (`parseCommits`/`parseCommit`) and the folder scoping of `handleChanges`. Each is proved against an independent reference: the last write to a path, searched from the newest commit back, and the paths in order of first occurrence.
- `Sync`: what `pushChange` does to a filesystem, modelled as `map<string, string>`. It covers the source URL, the target path, the credentials, `applyComment` and its inverse, and a whole sequence of pushes.
- `PushHandlers`: the class `PushHandler`, with the PHP object's fields, fluent setters that update them in place, and the terminal operations as methods with loops.
- `Webhooks`: the request as a value, `onPushToBranch`, `isRequestSecure` and `validateSecretOrDie`.

A callback is modelled by the sequence of `(local name, kind)` pairs it is called with. `listChanges` turns that sequence into lines. `pushChangesToFolder` applies it to the filesystem in order. The download is a parameter `fetch(url, credentials)`, and the HMAC is a parameter `hmac(data, key)`.

Behaviour worth knowing:

- Re-scoping a handler that already has a scope leaves that handler untouched, still active and with its old scope. It returns a new handler that is **inactive** (`makeInactiveCopy` sets `isActive = false` on the copy, and the recursive call returns the copy).
- `invokeWithArrayOfChanges` passes the whole, unscoped change set, even on an inactive handler.
- After `setGitHubCredentials` the stored string is at least `":"`, which is truthy. So credentials are sent on every download, even for an empty user name and password.
- A folder, comment or signature header equal to `"0"` counts as unset, as PHP's `if ($x)` does.

## Model

| member | source | states |
|---|---|---|
| `ChangeSets.PutLookup` | src/mt-github-webhook.php:126 | After `$changes[$p] = $k`, p reads k and every other path reads what it read before |
| `ChangeSets.PutPaths` | src/mt-github-webhook.php:126 | An existing key keeps its position; a new key is appended at the end |
| `ChangeSets.PutAllLookup` | src/mt-github-webhook.php:125-127 | After one `foreach` of assignments, a listed path reads the loop's kind and an unlisted path is unchanged |
| `ChangeSets.ApplyCommitLookup` | src/mt-github-webhook.php:124-134 | After one commit, a path reads removed if the commit removes it, else modified if it modifies it, else added if it adds it, else its previous kind |
| `ChangeSets.ApplyCommitPaths` | src/mt-github-webhook.php:124-134 | One commit appends its not-yet-seen paths in added, modified, removed order and keeps existing keys in place |
| `ChangeSets.FoldIsLastWrite` | src/mt-github-webhook.php:116-134 | After folding all commits, each path maps to the kind written for it last: the newest commit naming it decides, and within that commit removed beats modified beats added |
| `ChangeSets.AddedThenRemovedIsRemoved` | src/mt-github-webhook.php:124-134 | A path that the last commit both adds and removes ends up removed |
| `ChangeSets.FoldKeys` | src/mt-github-webhook.php:116-134 | The keys of the folded change set are exactly the listed paths, each once, in the order the commits first name them |
| `ChangeSets.StripMember` | src/mt-github-webhook.php:196-201 | With prefix `F/`, `(local, k)` is passed to the callback exactly when `(F/local, k)` is in the change set |
| `ChangeSets.VisibleMember` | src/mt-github-webhook.php:188-204 | With a truthy scope F, `(local, k)` is visible exactly when `(F + "/" + local, k)` is in the change set; without a scope, exactly the entries themselves are visible |
| `ChangeSets.VisibleAppend` | src/mt-github-webhook.php:196-205 | Scoping distributes over concatenation, so the callbacks keep change-set order |
| `ChangeSets.VisibleUnique` | src/mt-github-webhook.php:196-205 | Scoping a key-unique change set gives distinct local names |
| `Sync.ExtensionsExclusive` | src/mt-github-webhook.php:316-332 | At most one of the `.php`, `.css` and `.js` checks can match a path |
| `Sync.CommentOnPhp` | src/mt-github-webhook.php:316-323 | A `.php` file that starts with `<?php` becomes `<?php\r\n/* c */` followed by the rest of the file; any other `.php` file is unchanged |
| `Sync.CommentOnCssOrJs` | src/mt-github-webhook.php:325-337 | A `.css` or `.js` file becomes `/* c */\r\n` followed by its whole content, whatever that content is |
| `Sync.CommentOnOther` | src/mt-github-webhook.php:313-338 | A file with any other extension is left unchanged |
| `Sync.CommentIgnoresCase` | src/mt-github-webhook.php:314 | The extension check is case-insensitive: lower-casing the path first changes nothing |
| `Sync.CommentRoundTrip` | src/mt-github-webhook.php:313-338 | The injected comment can always be removed again to give back the downloaded content |
| `Sync.SourceUrlNamesFullPath` | src/mt-github-webhook.php:280-284 | The download URL is the raw-content host, then `repo/branch/`, then the full repository path: the scope and `/` go back in front of the local name |
| `Sync.ApplyChangesFrame` | src/mt-github-webhook.php:255-257 | A file that is the target of no call keeps its presence and its content |
| `Sync.ApplyChangesAt` | src/mt-github-webhook.php:255-257 | After pushing distinct local names in order, each removed target is gone and each other target holds its downloaded, commented body |
| `Sync.SyncedChange` | src/mt-github-webhook.php:185-311 | Every change the scope lets through lands at `folder/local`: removals delete it, other changes download the raw URL of the full repository path into it, with credentials and comment applied |
| `Sync.SyncKeepsOutsideFiles` | src/mt-github-webhook.php:274 | Pushing into a folder never touches a file outside `folder/` |
| `PushHandlers.PushHandler.constructor` | src/mt-github-webhook.php:95-106 | A new handler is active and unscoped, with empty credentials and comment; its change set is the fold of the commits when commits are given, and is key-unique |
| `PushHandlers.PushHandler.ParseCommits` | src/mt-github-webhook.php:116-122 | The loop leaves `changes` equal to the fold of all commits in order, starting from an empty array |
| `PushHandlers.PushHandler.ParseCommit` | src/mt-github-webhook.php:124-134 | The three loops assign added, then modified, then removed onto the old `changes` |
| `PushHandlers.PushHandler.MakeInactiveCopy` | src/mt-github-webhook.php:108-114 | A fresh inactive, unscoped handler with the same branch, repository, change set and credentials, and no comment |
| `PushHandlers.PushHandler.CreateDummy` | src/mt-github-webhook.php:163-167 | A fresh inactive handler with empty fields and no changes |
| `PushHandlers.PushHandler.ForChangesInFolder` | src/mt-github-webhook.php:175-183 | Unscoped: sets the scope in place and returns the same handler. Scoped: leaves this handler unchanged and returns a fresh inactive handler with the new scope, the same changes, branch, repository and credentials, and an empty comment |
| `PushHandlers.PushHandler.SetGitHubCredentials` | src/mt-github-webhook.php:158-161 | Stores `user:pass` and returns the same handler; the stored string is always truthy, so it is always sent |
| `PushHandlers.PushHandler.SetComment` | src/mt-github-webhook.php:267-271 | Stores the comment and returns the same handler |
| `PushHandlers.PushHandler.HandleChanges` | src/mt-github-webhook.php:185-208 | An inactive handler makes no calls. An unscoped active handler passes every entry unchanged, in order. A scoped one passes `(local, k)` exactly for the entries `(F/local, k)`, in change-set order |
| `PushHandlers.PushHandler.InvokeForEachChange` | src/mt-github-webhook.php:232-234 | The callback receives exactly the calls of handleChanges; none on an inactive handler |
| `PushHandlers.PushHandler.InvokeWithArrayOfChanges` | src/mt-github-webhook.php:219-222 | The callback receives the whole change set, ignoring the scope and the active flag |
| `PushHandlers.PushHandler.ListChanges` | src/mt-github-webhook.php:241-247 | One `path: kind\r\n` line per call of handleChanges, in order; no lines on an inactive handler |
| `PushHandlers.PushHandler.PushChange` | src/mt-github-webhook.php:273-311 | A removal deletes exactly `folder/local`. Any other change writes `folder/local` with the body fetched from the raw URL, with credentials only when they are truthy, and then comments it when the comment is truthy. Nothing else changes |
| `PushHandlers.PushHandler.PushChangesToFolder` | src/mt-github-webhook.php:255-257 | Applies pushChange for every call of handleChanges, in order; an inactive handler leaves the filesystem unchanged |
| `Webhooks.OnPushToBranch` | src/mt-github-webhook.php:53-61 | Active exactly when the lower-cased event is `push` and the ref is `refs/heads/` + branch; then it holds the fold of the payload's commits for that branch and repository; otherwise it is the dummy |
| `Webhooks.PushMatchesOneBranch` | src/mt-github-webhook.php:56 | At most one branch name matches a given push |
| `Webhooks.IsRequestSecure` | src/mt-github-webhook.php:69-80 | True exactly when the signature header is present and equals `sha1=` + hmac(raw body, secret); an absent or falsy header is never secure |
| `Webhooks.ValidateSecretOrDie` | src/mt-github-webhook.php:142-148 | Processing continues exactly when the request is secure; otherwise it stops with status 403 and the fixed message |

## Left out

- Reading `php://input` and the `X-GitHub-Event` / `X-Hub-Signature` headers: the request is a `Request` value passed in. `ensureInitDone` caches the raw body, the decoded payload and the event name in static fields, but only once the decoding gives a non-null value; when `json_decode` returns null, every call reads and decodes the body again. The signature header is never cached: `isRequestSecure` reads it on every call. The model reads one fixed request, so this caching makes no difference to it.
- `json_decode`: the payload is a `Payload` datatype. Malformed JSON and missing fields are not modelled.
- `hash_hmac`: a function parameter `hmac(data, key)`.
- The curl transfer and `fopen`/`fclose`: a download is `fetch(url, credentials)`, and its result replaces the target file. A failed or partial transfer is just some body returned by `fetch`.
- `mkdir` of a missing target directory, and the `file_exists` test before it: the filesystem is a flat map of files, without directories.
- `unlink` of a file that does not exist only raises a PHP warning. Here it is removal of an absent key, so nothing happens.
- The progress text that `pushChange` and `applyComment` echo ("Deleting …", "Downloading …", "Added PHP comment"): only the `listChanges` lines are modelled.
- `applyComment` rereads the file it just wrote. The model hands the downloaded body straight to the comment step, which gives the same final content.
- `mb_strtolower`: ASCII lower-casing only.
- The dummy's branch is PHP `null`; here it is `""`.
- A handler built without commits (the dummy, or the public constructor called without a third argument or with `null`) never sets `changes`, which stays PHP `null`; a copy from `makeInactiveCopy` inherits whatever its original holds. Here it is `[]`. On such a handler that is active, the `foreach` of `handleChanges` warns about a null argument and calls nothing, as the model's empty set does; `invokeWithArrayOfChanges` passes `null` in PHP where the model passes `[]`.
- Chaining: `invokeForEachChange`, `listChanges` and `pushChangesToFolder` return `$this`, or `null` when the handler is inactive; `invokeWithArrayOfChanges` always returns `$this`. The model's methods return what the callbacks receive, the lines or the new filesystem, instead of the handler.
- Integer keys: PHP stores a path made only of decimal digits, such as `"123"`, under an int key. `invokeForEachChange` on an unscoped handler and `invokeWithArrayOfChanges` then pass an int, not a string, to the callback. Paths are always strings here. The text of `listChanges` and what `pushChangesToFolder` does are unaffected.
- `validateSecretOrDie` is a handler method that ends the PHP process. Here it is a function of the request that returns a `Verdict`.
