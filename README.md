# yuk, modelled in Dafny

yuk is a Kubernetes operator that keeps a Git repository's deployment manifests
pointing at the newest image in a container registry. It watches `YukConfig`
resources. On each reconciliation pass it does the following:

- it skips disabled resources and passes that come before the check interval is up;
- it stamps the status with the check time and the observed generation;
- it asks Amazon ECR for the latest tag matching an optional regular-expression filter;
- when that tag differs from the current one, it clones the manifest repository,
  rewrites a YAML path in every update target, and commits and pushes;
- it records the outcome in the `Ready` condition and writes the status back.

This project models that core and proves properties of it:

- `yaml_path.dfy`: the YAML path language of `pkg/yaml/updater.go`. It covers
  `parsePath`, with its `(\w+)\[(\d+)\]` rewrite followed by a split on `.`, and
  `ValidateYAMLPath`, with its anchored path pattern. Each is written as a scanner and
  proved to agree with an explicit grammar of identifiers, `.field` steps and `[n]`
  steps.
- `yaml_tree.dfy`: the decoded YAML document as a tree value, with the following:
  - Go's `strconv.Atoi`;
  - `getValue`;
  - `setValue`, including the image-tag-only mode;
  - `updateImageTag`;
  - the walk of `updateValueAtPath`, as a method over the path parts.
- `yaml_file.dfy`: the file-level `UpdateYAMLPath` and `GetValueAtPath`.
  - They work against a `FileStore` object that holds the file contents.
  - The YAML codec is a caller-supplied pair of decode and encode functions.
- `ecr.dfy`: the tag selection of `GetLatestTag`, after `DescribeImages` has returned.
- `git.dfy`: the authenticated clone URL, the branch default, and the `Clone` and
  `CommitAndPush` command protocols. These are returned as step traces whose outcomes
  are inputs.
- `controller.dfy`: `setCondition`, `updateFiles` and one `Reconcile` pass of the
  `YukConfig` controller.
- `api_types.dfy`: the resource types these parts read and write.
- `strings.dfy` and `wrappers.dfy`: string helpers and the Option/Result types.

Three behaviours of the code are modelled as written and proved as lemmas:

- **Adjacent indexes.** A path with two adjacent indexes, such as `a[0][1]`, passes
  `ValidateYAMLPath`. `parsePath` then splits it into `a` and `0[1]`, so the second
  index is never applied as an index.
- **Image tag on a missing key.** The image-tag-only update of a missing mapping key
  stores the bare tag. A second run then turns it into `tag:tag`.
- **Registry port.** `updateImageTag` on an untagged `host:port/image` reference
  replaces everything after the port colon.

## Model

| member | source | states |
|---|---|---|
| Strings.Split | pkg/yaml/updater.go:106 | `strings.Split`. It always yields at least one part. No part contains the separator. Joining the parts with the separator gives the input back. |
| Strings.SplitJoin | pkg/yaml/updater.go:106 | Splitting the join of separator-free parts gives exactly those parts back. This is the inverse direction of Split. |
| Strings.LastIndexOf | pkg/yaml/updater.go:183-187 | The last occurrence of a character: the index holds the character and none follows it. The result is absent exactly when the character does not occur. |
| Strings.IndexFrom | pkg/git/client.go:141 | The first occurrence of a substring at or after a position. No earlier occurrence exists in that range. There is none at all when the result is absent. |
| Strings.ReplaceFirstAtPrefix | pkg/git/client.go:140-141 | `strings.Replace(s, target, replacement, 1)` on a string that starts with the target replaces exactly that prefix. |
| YamlPath.WordRunIsMaximal | pkg/yaml/updater.go:103 | The `\w+` run is greedy. Every character in it is a word character, and the character after it is not. |
| YamlPath.DigitRunIsMaximal | pkg/yaml/updater.go:103 | The `\d+` run is greedy. Every character in it is a digit, and the character after it is not. |
| YamlPath.ParsePathShape | pkg/yaml/updater.go:101-107 | `parsePath` always yields at least one part. No part contains a dot. Joining the parts with dots gives back the path after the index rewrite. |
| YamlPath.RewriteBracketFree | pkg/yaml/updater.go:103-104 | The index rewrite changes nothing in a path with no `[`. |
| YamlPath.ParsePathBracketFree | pkg/yaml/updater.go:101-107 | Without brackets, `parsePath` is exactly the split on dots. |
| YamlPath.RewriteIndexFront | pkg/yaml/updater.go:103-104 | `word[digits]` followed by anything is rewritten to `word.digits`, and the rewrite then continues after the closing bracket. |
| YamlPath.RewriteGrammarPath | pkg/yaml/updater.go:103-104 | On a well-formed path without adjacent indexes, the rewrite turns every `[n]` step into `.n` and leaves field steps alone. |
| YamlPath.JoinDottedSteps | pkg/yaml/updater.go:104-106 | Joining the identifier and the step names with dots gives the dotted form of the path. |
| YamlPath.BracketedDigitsUnchanged | pkg/yaml/updater.go:103-104 | A bracketed index with no word before it is not rewritten. |
| YamlPath.ParsePathOfGrammarPath | pkg/yaml/updater.go:101-107 | For a valid path without adjacent indexes, `parsePath` yields the identifier followed by one part per step: a field name, or an index's digits (updater_test.go:32-71). |
| YamlPath.ParsePathAdjacentIndexes | pkg/yaml/updater.go:101-107 | `id[m][n]` passes validation, but `parsePath` yields `[id, "m[n]"]`. The second index is glued to the first. |
| YamlPath.ValidateYAMLPath | pkg/yaml/updater.go:195-207 | The empty path is rejected as empty. A path the pattern does not match is rejected with an invalid-format error naming it. Otherwise the path is accepted. |
| YamlPath.ValidateYAMLPathIsGrammar | pkg/yaml/updater.go:201-204 | Validation accepts a path exactly when it is an identifier followed by `.identifier` and `[digits]` steps. This holds in both directions. |
| YamlPath.GrammarPathsMatch | pkg/yaml/updater.go:201 | Every path built from the grammar is matched by the validation scanner (completeness). |
| YamlPath.MatchedPathInGrammar | pkg/yaml/updater.go:201 | Every path the scanner matches has a grammar derivation that reproduces it (soundness). |
| YamlPath.PathTextShape | pkg/yaml/updater.go:201 | A grammar path uses only letters, digits, `_`, `.`, `[` and `]`, and every dot opens a field name. |
| YamlPath.ValidateRejectsForeignChar | pkg/yaml/updater.go:201-204 | A path containing any other character is rejected as invalid format (updater_test.go:142-146). |
| YamlPath.ValidateRejectsStrayDot | pkg/yaml/updater.go:201-204 | A dot that is not followed by a letter or `_` makes the path invalid. |
| YamlTree.DecimalStringDigits | pkg/yaml/updater.go:119 | The decimal rendering of a natural number consists of digits and denotes that number. |
| YamlTree.AtoiOfDecimal | pkg/yaml/updater.go:119 | `strconv.Atoi` parses the decimal rendering of any number in the int64 range back to that number. |
| YamlTree.AtoiOfSigned | pkg/yaml/updater.go:119 | A leading `+` is accepted. A leading `-` negates the value. |
| YamlTree.AtoiRejectsDigitless | pkg/yaml/updater.go:119-122 | A key with no digit at all is not an index. |
| YamlTree.GetValue | pkg/yaml/updater.go:110-131 | A mapping yields the child under a present key, or KeyNotFound. For a sequence, a non-integer key is an invalid index, and an integer outside `0..len-1` is out of bounds with that index and length. Otherwise the element at the index is returned. A scalar cannot be navigated. |
| YamlTree.SetValue | pkg/yaml/updater.go:134-174 | Setting succeeds exactly when the key designates a slot. A mapping always accepts and stays a mapping. A sequence keeps its length and reports the same index errors as getValue. A scalar cannot be set. |
| YamlTree.SetValueIsPut | pkg/yaml/updater.go:134-174 | setValue stores one computed child in the designated slot: the image with a replaced tag when in tag-only mode and the old value is a string, else the new value. |
| YamlTree.PutThenGet | pkg/yaml/updater.go:110-174 | After storing into a slot, reading any key that designates the same slot yields the stored child. |
| YamlTree.PutFrame | pkg/yaml/updater.go:110-174 | Storing into a slot leaves every other slot's value, and every error for other keys, as it was. |
| YamlTree.SameSlotSameValue | pkg/yaml/updater.go:119-126 | Keys that designate the same sequence slot, such as `1`, `01` and `+1`, read the same element. |
| YamlTree.SetThenGet | pkg/yaml/updater.go:134-174 | After a successful set, the key reads back the stored child. Outside tag-only mode, that child is the new value. |
| YamlTree.UpdateImageTagSpec | pkg/yaml/updater.go:177-192 | With a colon, everything after the last colon is replaced by the new tag. Without one, `:tag` is appended (updater_test.go:73-116). |
| YamlTree.UpdateImageTagIdempotent | pkg/yaml/updater.go:177-192 | Updating the tag twice with the same colon-free tag gives the same image as updating it once. |
| YamlTree.UpdateImageTagRegistryPort | pkg/yaml/updater.go:183-187 | `host:port/image` with no tag becomes `host:newTag`. The port and the image path are lost. |
| YamlTree.NavigateAppend | pkg/yaml/updater.go:83-95 | Walking `p + q` is walking `p`, then walking `q` from where `p` ends. |
| YamlTree.NavigateOne | pkg/yaml/updater.go:90-94 | Walking one part is getValue, with its error tagged by the part name. |
| YamlTree.UpdateAtSucceeds | pkg/yaml/updater.go:79-98 | An update succeeds exactly when every part but the last can be walked and the last part designates a slot of the node reached. |
| YamlTree.UpdateThenNavigate | pkg/yaml/updater.go:79-98 | After an update, walking the same path yields the stored child. |
| YamlTree.UpdateThenNavigatePlain | pkg/yaml/updater.go:79-98 | Outside tag-only mode, walking the updated path yields the new string (updater_test.go:161-201). |
| YamlTree.UpdateAtFrame | pkg/yaml/updater.go:79-98 | Paths that do not pass through the updated slot walk to the same result before and after the update. |
| YamlTree.UpdateAtPlainIdempotent | pkg/yaml/updater.go:79-98 | Repeating a plain update gives the same document. |
| YamlTree.PutTwice | pkg/yaml/updater.go:143-168 | A second store into a slot overwrites the first. |
| YamlTree.UpdateAtTagIdempotent | pkg/yaml/updater.go:137-145 | Repeating a tag-only update of an existing string leaf with a colon-free tag gives the same document. |
| YamlTree.TagOnlyOnMissingKey | pkg/yaml/updater.go:137-149 | A tag-only update of a missing mapping key stores the bare tag. A second run turns it into `tag:tag`, so this case is not idempotent. |
| YamlTree.UpdateValueAtPath | pkg/yaml/updater.go:79-98 | The walk over the parsed path parts gives exactly the path update. That update's success condition, read-back and frame are the lemmas above. |
| YamlTree.LiftPut | pkg/yaml/updater.go:83-95 | Rebuilding from a trail that ends in a parent and key is storing into that parent, then rebuilding the rest. |
| YamlFile.FileStore.ReadFile | pkg/yaml/updater.go:48-51 | A read succeeds exactly for an existing file and returns its contents. |
| YamlFile.FileStore.WriteFile | pkg/yaml/updater.go:71-73 | A write succeeds exactly for a writable file. It replaces only that file's contents; on failure nothing changes. |
| YamlFile.UpdateYAMLPath | pkg/yaml/updater.go:46-76 | Each failing step is reported with its file and path: read, parse, update, marshal or write. When any step fails, no file changes. On success only the target file changes, to the encoded updated document. |
| YamlFile.GetValueAtPath | pkg/yaml/updater.go:210-236 | It returns the node at the parsed path of the decoded file, or the read, parse or walk error. |
| YamlFile.WriteOnlyAfterSuccess | pkg/yaml/updater.go:46-73 | Bytes to write exist only when the file was read, decoded and updated. |
| YamlFile.UpdateThenGetValueAtPath | pkg/yaml/updater.go:46-76 | With a codec that round-trips documents, reading the path back after a plain update yields the new value (updater_test.go:161-201). |
| Ecr.LexLessIrreflexive | pkg/ecr/client.go:95-97 | Go's string order is irreflexive. |
| Ecr.LexLessAsymmetric | pkg/ecr/client.go:95-97 | Go's string order is asymmetric. |
| Ecr.LexLessTransitive | pkg/ecr/client.go:95-97 | Go's string order is transitive. |
| Ecr.LexLessTotal | pkg/ecr/client.go:95-97 | Any two different strings are ordered one way or the other, so a greatest tag always exists. |
| Ecr.KeptMembers | pkg/ecr/client.go:79-87 | The tags kept from one image are exactly its non-empty tags that pass the filter. |
| Ecr.CandidateMembers | pkg/ecr/client.go:78-88 | The candidate tags are exactly the non-empty tags of some image that the filter matches. With an empty filter, they are all non-empty tags. |
| Ecr.LatestUnique | pkg/ecr/client.go:94-99 | The greatest candidate is unique. |
| Ecr.LatestIgnoresOrder | pkg/ecr/client.go:94-99 | The greatest candidate does not depend on the order of the images or their tags. |
| Ecr.GetLatestTag | pkg/ecr/client.go:63-99 | No images: NoImages. A non-empty filter that does not compile: InvalidFilter. No candidate: NoMatchingTags. Otherwise the result is a candidate that no candidate exceeds, which is the first element after the descending sort. |
| Git.GetAuthenticatedRepoURL | pkg/git/client.go:127-146 | Without a token reference, the URL is unchanged. With a reference but no token: TokenNotFound. With a token, a `https://github.com/` URL gets `token@` spliced in, and any other URL is unchanged (client_test.go:56-74). |
| Git.AuthenticatedURLInsertsToken | pkg/git/client.go:139-141 | The authenticated URL is the configured one with only `token@` inserted after the `https://` scheme. |
| Git.EffectiveBranch | pkg/git/client.go:58-61 | The branch is the configured one, or `main` when none is configured. It is never empty. |
| Git.Clone | pkg/git/client.go:43-78 | The first step is always making the temporary directory. The clone succeeds exactly when every command and the URL resolution succeed, returning the directory after make, clone of the effective branch, and configure. Each failure gives its own error and its exact command sequence: a failed directory stops at once; an auth failure removes the directory straight away; a failed clone runs make, clone, remove; a failed configure runs make, clone, configure, remove. |
| Git.CommitAndPush | pkg/git/client.go:81-119 | The commands run in protocol order (add, staged check, commit, push) and stop at the first failure, which is the error returned. A clean index ends successfully after the check. The push targets the effective branch. |
| Controller.FindCondition | pkg/controllers/yukconfig_controller.go:325-326 | Finds the first condition of the type, with none of that type before it. The result is absent exactly when no condition has the type. |
| Controller.SetCondition | pkg/controllers/yukconfig_controller.go:315-338 | The loop gives exactly the conditions with the record replaced or appended, which is what the lemmas below characterise. |
| Controller.SetConditionReadsBack | pkg/controllers/yukconfig_controller.go:315-338 | Afterwards the condition of the type has the given status, reason and message. Its transition time is kept when a record of that type already had the same status, and is `now` otherwise. |
| Controller.FindConditionAt | pkg/controllers/yukconfig_controller.go:325-326 | The first condition of the type is the one found. |
| Controller.SetConditionFrame | pkg/controllers/yukconfig_controller.go:324-337 | The list grows by one exactly when the type was absent. Every condition of another type is unchanged. |
| Controller.SetConditionIdempotent | pkg/controllers/yukconfig_controller.go:315-338 | Setting the same condition twice gives the same list as setting it once. |
| Controller.SetConditionKeepsTypesUnique | pkg/controllers/yukconfig_controller.go:324-336 | On a list with at most one record per type, setting a condition keeps at most one record per type. |
| Controller.SetConditionKeepsDuplicates | pkg/controllers/yukconfig_controller.go:324-334 | Only the first record of the type is replaced, so a list already holding two records of the type keeps the later one unchanged and stays duplicated. |
| Controller.ApplyTargetsAppend | pkg/controllers/yukconfig_controller.go:259-278 | Applying two lists of targets is applying the first, then the second only if the first succeeded. The first failure aborts the rest. |
| Controller.ApplyTargetsTouchesTargets | pkg/controllers/yukconfig_controller.go:259-278 | Files that are not a target's `repoPath/file` are never changed. |
| Controller.CommitMessage | pkg/controllers/yukconfig_controller.go:281-284 | The configured commit message, or `Update container image to <tag>` when none is set. |
| Controller.UpdateFiles | pkg/controllers/yukconfig_controller.go:228-312 | A clone failure changes no file and is reported with the cause and the exact commands of `Clone` (temporary directory, auth, clone or configure failure). Otherwise the targets are applied in order, stopping at the first failure, which is reported with its file, and no commit is attempted then. Without a failure, the commit protocol runs with the commit message. In both cases the clone directory is removed last. |
| Controller.WriteReady | pkg/controllers/yukconfig_controller.go:165-167 | Sets the Ready condition and then writes the status, once, as the last call. |
| Controller.Synchronize | pkg/controllers/yukconfig_controller.go:119-224 | The written status carries this pass's check time and the object's generation. The calls are exactly: one tag resolution, only for an ECR repository with its configuration; one file update, only for a resolved tag that is new; and the status write, last. A repository error gives Ready=False/RepositoryError with tags untouched. A new tag triggers a file update, and its failure gives Ready=False/UpdateError. Otherwise Ready=True/Synchronized, with the current tag and last update advanced only when the tag changed. In every outcome the written conditions are the object's conditions with Ready set as `setCondition` sets it: other conditions kept, the transition time moved only when the status changes. |
| Controller.Reconcile | pkg/controllers/yukconfig_controller.go:52-225 | A missing object is ignored and any other fetch error returned. A disabled object is skipped. Before the interval is up, the pass only requeues for the remaining time. Each of these makes no call. Past the gate, the pass has the outcomes of Synchronize, with the same exact call list (at most one resolution, at most one file update, one status write) and the fetched object's conditions updated by `setCondition`: it requeues after the interval, or returns the status-write error without requeue when synchronized. |

## Left out

- Metrics: the Prometheus counters, histograms and `updateStatusMetrics`/`cleanupMetrics` do not affect any returned value.
- YAML encoding and decoding (`yaml.Unmarshal`, `yaml.Marshal`) are a caller-supplied codec. Documents are trees of string-keyed mappings, sequences and scalars; a scalar is a string (`Str`), an integer (`Int`), a boolean (`Bool`) or null (`Null`). A plain timestamp decodes to `Str`, as yaml.v3 keeps it a string when decoding into `interface{}`, so the image-tag rewrite treats it as a string. Floats have no node of their own, and the codec must decode them, like a mapping whose keys are not strings, to a scalar node other than `Str` (`Int`, `Bool` or `Null`): then navigation and `setValue` refuse them as the source's default branch does, and a tag-only update stores the plain value. Decoding them to `Seq` would wrongly let them be indexed.
- The file system is a `FileStore` holding the contents of every file by full path, plus the set of files that cannot be written. File modes and partial writes are not modelled.
- YamlTree.UpdateValueAtPath: Go updates the decoded document in place through shared maps and slices. The model rebuilds the document along the path, which gives the same final document, but aliasing is not modelled.
- The regular expressions of `parsePath` and `ValidateYAMLPath` are hand-written scanners for those two fixed patterns (`\w` is ASCII, as in Go's RE2). The tag filter of `GetLatestTag` is an uninterpreted predicate, together with whether it compiles.
- Ecr.GetLatestTag: `sort.Slice` is not modelled as a sort. Only its first element is observable, and the model returns the greatest candidate, proved unique.
- The AWS SDK calls (`initClient`, `DescribeImages`, `GetImageDetails`, `ListRepositories`) and their errors are left out. Tag selection starts from the returned image details.
- Git commands are steps in a returned trace whose success is an input. `configureGitUser` (two `git config` commands) is one step. `GetLastCommitHash`, `GetFileContent` and `WriteFileContent` are not used by the core and are not modelled.
- The `GITHUB_TOKEN` environment variable is a parameter. The empty string stands for an unset variable.
- Clocks: `metav1.Now()` and `time.Now()` are an integer `now` in nanoseconds, passed in. The second-granularity truncation of `metav1.Time` and the int64 range of `time.Duration` are not modelled.
- Controller.Reconcile: the outcomes of `Get`, `GetLatestTag`, `updateFiles` and the status write are inputs, with errors as their message text. The pass is not composed with Ecr.GetLatestTag or Controller.UpdateFiles, which are modelled and proved on their own.
- Controller.SetCondition: the `ObservedGeneration` field of `metav1.Condition` is not modelled; `setCondition` builds the record without it, so it is always zero after a replacement.
- Controller.UpdateFiles: the cleanup deferred until the function returns is a final RemoveDir step. The per-target error wrapping is the target's file name together with the updater's error value.
- Context cancellation, logging, the manager setup (`SetupWithManager`) and the ECR client's region configuration are left out.
