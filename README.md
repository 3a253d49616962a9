# dockerfile_version_bumper — a verified model of its core

`dockerfile_version_bumper` reads Dockerfiles, finds `FROM image:tag` lines
whose tag contains version numbers, asks Docker Hub which tags the image has,
picks the newest one that has the same shape as the current tag, and writes
the new tag back into the Dockerfile. This project models the pure core of
that pipeline in Dafny and proves properties about it:

- `Data` (`src/dvb/data.rs`): the `Tag` value (its text plus four `u32`
  version numbers) compared lexicographically on the numbers only, its display
  text, and the `Parent` value (a `FROM` declaration) whose equality uses the
  image name and tag only.
- `Pattern` and `Convert` (`src/dvb/convert.rs`): building a tag pattern from a
  tag (`-` and `.` escaped, each run of digits turned into the group
  `([0-9]+)`, then `^…$` anchors), and parsing a tag with such a pattern into
  its four numbers. Patterns are modelled as token sequences (a literal
  character or a digit-run group). `Pattern.Match` is an anchored greedy
  matcher. It is proved sound against a relational definition of what the
  regex accepts. It is proved complete for patterns in which no digit group is
  followed by something that can match a digit; every pattern built from a
  tag has that form. The `FROM` line pattern of `image_tag_to_re` is modelled
  by the lines it accepts when the image and suffix hold no regex
  metacharacter.
- `Read` (`src/dvb/read.rs`): splitting Dockerfile text into lines, keeping
  lines that start with `FROM `, recognising them with
  `^FROM\s+(\S+):(\S+)\s*(.*)$`, turning each into a `Parent`, and
  collecting the parents into a set. The recogniser is proved to return the
  split that the regex engine's leftmost-first, greedy semantics returns.
- `Uptag` (`src/dvb/uptag.rs`): scanning the registry's JSON answer for
  `"name": "<tag>"`, keeping the tags that match the parent's pattern and
  are not older than the current tag, then a stable sort, a reverse and taking
  the head.
- `Write` (`src/dvb/write.rs`): the loop that builds one new text per
  Dockerfile path, in first-seen order, applying every (parent, new tag)
  substitution in turn. It is an imperative method proved against a per-file
  reference definition.
- `Lib` (`src/lib.rs`): narrowing the parents to those named with
  `--parent/-p`, with the two error messages.

Notes on where the model follows the code over its documentation:

- `Tag`'s `Display` writes the four numbers as `a.b.c.d` (`src/dvb/data.rs:56-60`),
  not the tag text. The model follows the code: `Data.Display`.
- `src/dvb/data.rs` as it stands declares `Tag` with only `nrs` and `Parent`
  without a Dockerfile. The rest of the code builds `Tag::new(text, nrs)`
  (`src/dvb/convert.rs:51`) and `Parent::new(dockerfile, name, pattern, tag, suffix)`
  (`src/dvb/write.rs:52-58`) and calls `parent.dockerfile()`. The model
  follows these uses: `Tag(name, nrs)` and `Parent(dockerfile, …)`.
- Escaping for the tag pattern covers only `-` and `.` (`src/dvb/convert.rs:11`).
  Tags are required to be in the Docker tag alphabet `[A-Za-z0-9_.-]`, so no
  other regex metacharacter can occur.
- `str::lines` is modelled as splitting on `\n` (a final `\n` does not start
  an empty line) and removing one `\r` at the end of each line.

## Model

| member | source | states |
|---|---|---|
| Data.Cmp | src/dvb/data.rs:76-80 | `Equal` exactly when the number tuples are equal, `Less`/`Greater` exactly when they are lexicographically smaller/greater; the tag text plays no part |
| Data.PartialCmp | src/dvb/data.rs:70-74 | the partial order is total and always agrees with `Cmp` |
| Data.CmpSwap | src/dvb/data.rs:76-80 | swapping the arguments flips the ordering (antisymmetry) |
| Data.LeTotalPreorder | src/dvb/data.rs:62-80 | `<=` is reflexive, total and transitive, and `a <= b && b <= a` holds exactly when the tags are equal (`eq` on `nrs`) |
| Data.Display | src/dvb/data.rs:56-60 | the display text consists of digits and dots only |
| Data.DisplayExample | src/dvb/data.rs:56-60 | the tag `1.3.2-alpha` with numbers (1,3,2,0) displays as `1.3.2.0` |
| Data.ParentEqIsKeyEq | src/dvb/data.rs:35-39 | two parents are equal exactly when their (name, numbers) keys are equal |
| Data.ParentEqIgnoresPayload | src/dvb/data.rs:35-39 | parent equality does not depend on the Dockerfile, the tag pattern or the suffix |
| Data.ParentDisplayLayout | src/dvb/data.rs:25-33 | the text is `name:`, then the tag's display text, `@` and the pattern text; without a suffix it ends there (with the pattern's closing `$`), otherwise a space and the suffix follow |
| Pattern.Match | src/dvb/convert.rs:36-44 | a match yields one capture per digit group, each a non-empty run of digits |
| Pattern.MatchSound | src/dvb/convert.rs:36-44 | whatever the greedy matcher returns is a way the anchored pattern accepts the text |
| Pattern.MatchComplete | src/dvb/convert.rs:36-44 | for a pattern with no digit group followed by a digit, every way the pattern accepts the text is the one the matcher returns |
| Pattern.MatchOnlyDockerTags | src/dvb/convert.rs:16-26 | a pattern whose literals are Docker tag characters matches only Docker tags |
| Text.DecimalRoundTrip | src/dvb/convert.rs:54-57 | the decimal digits of a number read back as that number (`str::parse::<u32>` on the displayed number) |
| Text.ReplaceAppend | src/dvb/convert.rs:11 | character replacement distributes over concatenation |
| Convert.TagReStrIsRender | src/dvb/convert.rs:10-14 | the escaped, digit-replaced text equals the rendering of the token pattern of the tag |
| Convert.TokenizeWellFormed | src/dvb/convert.rs:10-14 | in a synthesized pattern no digit group is followed by a digit literal |
| Convert.MatchOwnTag | src/dvb/convert.rs:10-26 | a tag's own pattern matches it, capturing exactly its digit runs |
| Convert.TagToRe | src/dvb/convert.rs:16-26 | for a Docker tag the result is `Ok`, its text is `^` + `tag_re_str` + `$`, it has one group per digit run, and only Docker tags match it |
| Convert.DeclarationAcceptsOwnLine | src/dvb/convert.rs:28-34 | for a Docker tag, the `FROM` pattern built from an image, the tag and a suffix accepts the line `FROM image:tag suffix` |
| Convert.DeclarationNeedsTrailingWs | src/dvb/convert.rs:28-34 | with an empty suffix the pattern still needs `\s+` at the end, so it accepts only lines ending in whitespace |
| Convert.DeclarationRejectsBareLine | src/dvb/convert.rs:28-34 | hence the pattern built from `FROM image:tag` with no suffix does not accept that line |
| Convert.ParseTag | src/dvb/convert.rs:36-57 | `Err` exactly when the pattern does not match, with the "failed to capture" message; on `Ok` the tag keeps its text and its numbers are the first four captures read as decimals, missing ones 0 |
| Convert.ParseTagRoundTrip | src/dvb/convert.rs:16-57 | parsing a tag with its own pattern succeeds, keeps the text, and yields the first four digit runs of the tag |
| Convert.DisplayReparses | src/dvb/data.rs:56-60 | a tag's display text is a Docker tag and parses, with its own pattern, back to the same numbers |
| Read.RawLinesCover | src/dvb/read.rs:41 | joining the lines back with newlines restores the text, with a final newline added when it had none |
| Read.Lines | src/dvb/read.rs:41 | each line is its raw piece without a trailing `\r`, and contains no newline |
| Read.FromSplitIsLeftmostFirst | src/dvb/read.rs:17 | the recogniser succeeds exactly when `FROM_RE` can match, and returns the split a leftmost-first greedy engine picks (the largest one in capture order) |
| Read.FromCaptures | src/dvb/read.rs:17 | image and tag are non-empty, the tag has no `:` before its last character, the suffix does not start with whitespace and ends the line |
| Read.FromCapturesRebuild | src/dvb/read.rs:17 | the line is `FROM`, non-empty whitespace, the image, `:`, the tag, whitespace and the suffix; image and tag are non-empty and hold no whitespace, and the tag is followed by whitespace or ends the line |
| Read.ParentFrom | src/dvb/read.rs:50 | the parent keeps the file, image and suffix, carries the tag's own pattern and the tag's first four digit runs as numbers |
| Read.ParseLineFrom | src/dvb/read.rs:48-60 | `Some` exactly when `FROM_RE` captures the line, and then the parent built from the three captures |
| Read.CollectSpec | src/dvb/read.rs:45 | the set holds each parent under its key, every key of the input, only input parents, and for each key the first parent inserted |
| Read.AllParentsOrigin | src/dvb/read.rs:39-46 | every extracted parent comes from a `FROM ` line of one of the files |
| Read.AllParentsComplete | src/dvb/read.rs:39-46 | every `FROM ` line that the regex recognises contributes its parent |
| Read.ExtractParentsSpec | src/dvb/read.rs:39-46 | the result is keyed consistently, every member comes from a `FROM ` line, and every recognised `FROM ` line's parent (up to equality) is in it |
| Uptag.NameMatchAtSpec | src/dvb/uptag.rs:15 | at each position `NAME_TAG_RE` has at most one match and the scanner finds it, with its whitespace and its group 1 |
| Uptag.ScanNames | src/dvb/uptag.rs:49 | the matches lie at or after the starting position, are in order and do not overlap |
| Uptag.ScanNamesMatches | src/dvb/uptag.rs:15-16 | each reported match is the match of `NAME_TAG_RE` at its start |
| Uptag.ScanNamesComplete | src/dvb/uptag.rs:49 | every position where the regex could match lies inside a reported match |
| Uptag.SurvivorsSpec | src/dvb/uptag.rs:49-52 | a survivor is a candidate's parse that matched and is `>=` the current tag, and every such parse survives |
| Uptag.StableSort | src/dvb/uptag.rs:53 | the sort is a permutation of its input |
| Uptag.StableSortSorted | src/dvb/uptag.rs:53 | the sort is ascending |
| Uptag.LastMaxIndexSpec | src/dvb/uptag.rs:53-55 | the chosen element is at least every element and strictly greater than every later one |
| Uptag.StableSortLast | src/dvb/uptag.rs:53-55 | the last element after sorting is the last maximal element of the input |
| Uptag.SelectHighestSpec | src/dvb/uptag.rs:49-56 | `Err` with the "could not find the version … nor any higher ones" message exactly when nothing survives; otherwise a parsed candidate, `>=` the current tag, `>=` every survivor, the last of equals |
| Uptag.NotFoundNamesTag | src/dvb/uptag.rs:56 | the error message contains the current tag's display text |
| Uptag.FindHighestTagSpec | src/dvb/uptag.rs:47-58 | with group 1 read: the parent comes back unchanged with the newest eligible registry tag, or the error exactly when none is eligible |
| Uptag.AsWrittenNeverFinds | src/dvb/uptag.rs:50-51 | as written (whole match `tag[0]` tested), every registry answer gives the "could not find" error |
| Write.ReplaceAll | src/dvb/write.rs:23 | the text is either kept or replaced by the new tag; it is replaced exactly when the anchored pattern matches all of it |
| Write.ReplaceAllKeepsNonTags | src/dvb/write.rs:23 | a text with a character outside the Docker tag alphabet is never rewritten |
| Write.PathsSpec | src/dvb/write.rs:19-22 | the keys are the updates' paths, each exactly once, and the key order and the map agree |
| Write.ContentsIsForPath | src/dvb/write.rs:17-28 | each file's text is its first Dockerfile content with all updates for that path applied in order |
| Write.MultiLineFilesUnchanged | src/dvb/write.rs:17-28 | a Dockerfile whose text is not a bare tag comes out unchanged |
| Write.UpdatedDockerfilesContent | src/dvb/write.rs:17-28 | the loop yields the distinct paths in first-seen order and, for each, the reference per-file text |
| Lib.FilterParents | src/lib.rs:29-45 | no names: all parents, or the "No FROM tags" error when there are none; with names: exactly the parents with those names, or the "None of the FROM tags given" error when none is left |
| Lib.FilterParentsKeyed | src/lib.rs:36-40 | filtering keeps every parent under its own key |
| Lib.FilterParentsBySet | src/lib.rs:36 | only the set of allowed names matters, not their order or repetitions |

## Left out

- Reading files, the HTTP requests to Docker Hub, `async` streams and
  `buffer_unordered`: the Dockerfiles and the registry answer are
  parameters (`read_all_dockerfiles`, `read_dockerfile`, `request_tag_json`,
  `load_tags`, `find_available_tags`, `update_all_dockerfiles`).
- `bump_dockerfiles`, `choose_tag` and `find_available_tags` in `src/lib.rs`
  stop at `assert!` or `unimplemented!()`; only `filter_parents` is modelled.
- `parse_tag` in `src/dvb/data.rs` ends in `unimplemented!()`; `src/dvb/uptag.rs`
  imports that one, but the model uses the complete `parse_tag` of
  `src/dvb/convert.rs`. With the as-written filter nothing reaches it.
- Logging (`debug!`, `info!`, `warn!`, `dbg!`) and the warning on a `FROM`
  line with a `:` that is not recognised: they do not change results.
- Compiling the `image_tag_to_re` pattern: the image and suffix are
  inserted unescaped, so it depends on the regex compiler's error handling.
  Its text is `Convert.ImageTagToRe`. The lines it accepts
  (`Convert.DeclarationAccepts`) are modelled only for an image and a suffix
  without regex metacharacters (`Convert.IsPlain`) and a Docker tag. An image such as
  `docker.io/python`, whose `.` matches any character, is outside that reading.
- Read.ParentFrom: `Parent::from((image, tag, suffix))`, called at
  `src/dvb/read.rs:50`, is defined nowhere in the source. The model takes the
  pattern from `tag_to_re` and the tag from `parse_tag`, as `src/dvb/write.rs`
  and `src/dvb/uptag.rs` use them. It also adds the Dockerfile, which the
  3-tuple does not carry but the rest of the code reads.
- `Hash for Parent` also hashes the tag pattern text while equality ignores
  it, so two equal parents can hash differently and both stay in a
  `HashSet`. The model uses a set keyed by equality (`Read.Collect`), which
  keeps the first one.
- Convert.TagToRe: requires a Docker tag (`[A-Za-z0-9_.-]`); other
  characters would be regex metacharacters that the escaping does not cover.
- Convert.ParseTag: requires the first four captures to fit in a `u32`;
  larger numbers make `match_to_nr` panic (`unwrap`).
- Pattern.Match: a greedy matcher without backtracking. It agrees with the
  regex only on patterns where no digit group is followed by something that
  can match a digit (`Pattern.WellFormed`). For example `^([0-9]+)5$`
  matches `125`, but `Match` returns `None`. `Parent.tagPattern` admits any
  token sequence, so `Convert.ParseTag`, `Pattern.IsMatch` and
  `Write.ReplaceAll` model the regex only for well-formed patterns. Every
  pattern the model builds comes from `Convert.TagToRe` and is well-formed.
- Uptag.ScanNames: `\s` is taken as ASCII whitespace, not Unicode whitespace.
- Read.FromSplitIsLeftmostFirst: `\s` in `FROM_RE` is also taken as ASCII
  whitespace (`Text.IsWs`), and `\S` as its complement.
- Read.ExtractParentsSpec: requires every line that passes the `FROM `
  filter and is recognised by `FROM_RE` to have a Docker tag whose digit runs
  fit in a `u32` (`Read.FilesOk`). The same applies to
  `Read.AllParentsOrigin` and `Read.AllParentsComplete`. A file with a line
  such as `FROM image:${TAG}` is outside the model, because `tag_to_re` and
  `parse_tag` are modelled only for such tags. Lines that fail the
  `FROM ` filter are not constrained.
- Read.Lines: `str::lines` is taken to remove one `\r` before each `\n` or at the end of the text.
- Write.UpdatedDockerfilesContent: the `IndexMap<Parent, Tag>` input is a
  sequence of pairs; uniqueness of its keys is not used by the loop and is
  not modelled.
- Write.ReplaceAll: models `replace_all` with the pattern as built, anchored
  by `^` and `$`. The tests in `src/dvb/write.rs` expect a substitution inside a
  line, which this pattern cannot do; the intended behaviour is not clear
  from the code (the second test's expectation is inconsistent with its
  input), so no corrected version is modelled.
- The major-only bump policy and the `--print` switch are unimplemented in
  the source and are not modelled.

## Findings

| source | as written | input that shows it | evidently intended | confidence | as-written member | corrected member |
|---|---|---|---|---|---|---|
| src/dvb/uptag.rs:50-51 | tests and parses `tag[0]`, the whole `"name": "<v>"` match, against the anchored tag pattern | any registry answer, e.g. `[{"name": "1.2.4-alpha"}]` for the tag `1.2.4-alpha`: the candidate is `"name": "1.2.4-alpha"`, which starts with `"` and never matches | test and parse `tag[1]`, the tag name | high (not executed) | Uptag.AsWrittenNeverFinds | Uptag.FindHighestTagSpec |
