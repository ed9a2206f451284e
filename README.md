# Reference configuration loader (suricata `util-reference-config.c`)

This project models how suricata loads its `reference.config` file and proves
properties of the model. Each directive line has the form

    config reference: <system> <url>

The loader does the following:

- it skips blank lines and comment lines;
- it matches every other line against one fixed regular expression;
- it lowers the system name to a canonical key;
- it stores `(key, url)` in a 128-bucket hash table, unless the key is
  already there, so the first definition of a name wins;
- lookups lower the probe name the same way.

Modules, one per file:

- `CType` (`ctype.dfy`): the `<ctype.h>` predicates and `tolower` in the C
  locale.
- `LineClassifier` (`classifier.dfy`): the blank-or-comment test, a loop
  proved against a declarative predicate.
- `Grammar` (`grammar.dfy`): the regular expression
  `^\s*config\s+reference\s*:\s*([a-zA-Z][a-zA-Z0-9-_]*)\s+(.+)\s*$`.
  - `MatchesAt` reads it piece by piece as a relation between a line and
    the positions of one match.
  - `Parse` and `Match` are a hand-written recogniser, proved sound and
    complete against that reading.
  - Among all matches, the recogniser returns the one PCRE's backtracking
    reaches first.
- `Canon` (`canon.dfy`): lowering a string and building an entry.
- `RefStore` (`store.dfy`): the hash and compare callbacks, and the table
  as a class.
  - The table holds an `array` of 128 bucket chains, a `count`, and a ghost
    map `Contents` that the chains refine.
  - The invariant says that every entry sits in the bucket its name hashes
    to, that no name is stored twice, and that `count == |Contents|`.
- `ReferenceConfig` (`reference_config.dfy`): adding one line, the load loop,
  loading a stream, and lookup.
  - The specification functions are `Load` and `Keys`.
  - The load theorems say that the table's keys are exactly the lowered
    names of the matching, non-skipped lines, and that each key keeps the
    url of its first definition.
- `ReferenceConfigTests` (`reference_config_tests.dfy`): the three test
  buffers FD01, FD02 and FD03, what loading each gives, and the six unit
  tests as methods whose result is proved true.

Character and integer conventions:

- A `char` stands for one byte of a C string.
- `\s` and `isspace` are both the set: blank, and codes 9 to 13.
- The hash sum is a `uint32_t`, so it wraps modulo 2^32. The model keeps
  that wrap explicitly.

Two behaviours of the pattern as written differ from a plain reading of the
directive format. The model follows the code in both cases:

- `(.+)` is greedy, so blanks at the end of the url stay in the capture.
  Only the final newline is excluded, because `.` does not match it.
- When nothing but blanks follows the system name, `\s+` gives one back. So
  `config reference: four` followed by two blanks and the newline matches,
  with the url `" "` (`Grammar.AcceptsBlankUrl`). Followed by the newline
  alone, it does not match (`Grammar.RejectsMissingUrl`).

The comment above `SCRConfLoadReferenceConfigFile` (line 484) shows a comma
between name and url. The pattern rejects that form, and the model follows
the pattern.

## Model

| member | source | states |
|---|---|---|
| CType.ToLower | src/util-reference-config.c:206 | `tolower` in the C locale maps each of `A` to `Z` to the letter of the same rank in `a` to `z` and returns every other byte unchanged; no upper-case letter is left and letters stay letters |
| LineClassifier.IsLineBlankOrComment | src/util-reference-config.c:300-316 | returns true exactly when the whole line is blank, or when every character before some `#` is blank |
| LineClassifier.NotSkipped | src/util-reference-config.c:300-316 | a line that starts with neither a blank nor `#` is not skipped |
| Grammar.Match | src/util-reference-config.c:39 | accepts exactly when the recogniser finds a split; the system capture is a letter followed by name characters, and the url capture is non-empty and has no newline |
| Grammar.ParseSound | src/util-reference-config.c:39 | every split the recogniser returns is a match of the pattern, piece by piece |
| Grammar.ParseComplete | src/util-reference-config.c:39 | for every match of the pattern, the recogniser finds a split with the same system capture, preferred in PCRE's backtracking order (url starts last, then ends last) |
| Grammar.MatchAcceptsExactly | src/util-reference-config.c:39 | a line is accepted if and only if the pattern matches it |
| Grammar.MatchSystemIsCapture | src/util-reference-config.c:246-250 | in any match, capture 1 is the system name returned |
| Grammar.MatchesDirective | src/util-reference-config.c:541 | `config reference: <sys> <url>\n` yields exactly `(sys, url)`, trailing blanks of the url included |
| Grammar.RejectsGluedConfig | src/util-reference-config.c:562 | `config` followed by a non-blank (`config_`) never matches |
| Grammar.RejectsMissingColon | src/util-reference-config.c:563 | `config reference`, blanks, then neither `:` nor a blank (`reference_:`, `reference five`) never matches |
| Grammar.RejectsMissingUrl | src/util-reference-config.c:564 | a system name followed only by the newline never matches |
| Grammar.AcceptsBlankUrl | src/util-reference-config.c:39 | a system name followed by two blanks and the newline matches with the url `" "` |
| Canon.StringToLowercase | src/util-reference-config.c:198-214 | the copy, lowered in place one byte at a time, is `tolower` of each input byte at the same position |
| Canon.LowerProperties | src/util-reference-config.c:198-214 | lowering keeps the length, leaves no upper-case letter and is idempotent |
| Canon.LowerOfLowerCase | src/util-reference-config.c:198-214 | a name without upper-case letters is unchanged |
| Canon.SameCanonicalForm | src/util-reference-config.c:198-214 | two names lower to the same key if and only if they have the same length and agree byte by byte under `tolower` |
| Canon.SameUpToCaseIsSameKey | src/util-reference-config.c:198-214 | two names lower to the same key if and only if they differ only in the case of their letters |
| Canon.AllocReference | src/util-reference-config.c:353-380 | no entry without a system name; otherwise the key is the lowered name and the url is copied unchanged |
| RefStore.ReferenceHash | src/util-reference-config.c:412-426 | the loop sum, wrapping in a `uint32_t`, equals the sum of the lowered bytes mod 2^32 mod `array_size`, and lies below `array_size` |
| RefStore.HashSeesCanonicalForm | src/util-reference-config.c:412-426 | the hash depends only on the lowered bytes |
| RefStore.WrapDoesNotMoveBucket | src/util-reference-config.c:412-426 | with 128 buckets the `uint32_t` wrap never changes the bucket |
| RefStore.MemEqual | src/util-reference-config.c:458 | `memcmp(s, t, n) == 0` exactly when the first n bytes agree |
| RefStore.CompareReferences | src/util-reference-config.c:441-464 | true if and only if both entries are present and their system names have equal length and equal bytes |
| RefStore.CompareSymmetric | src/util-reference-config.c:441-464 | the compare function is symmetric |
| RefStore.CaseVariantsCollide | src/util-reference-config.c:412-464 | names that differ only in the case of their letters compare equal once lowered, and hash to the same bucket |
| RefStore.AppendKeepsWellFormed | src/util-reference-config.c:265 | appending an absent name to its bucket keeps every entry in its bucket and names unique, and adds exactly that name |
| RefStore.ReferenceTable.constructor | src/util-reference-config.c:80-82 | `HashTableInit(128, …)`: 128 empty buckets, count 0, no contents |
| RefStore.ReferenceTable.Lookup | src/util-reference-config.c:264 | walking the hashed chain finds the entry stored under the probe's name, and finds none when the name is absent |
| RefStore.ReferenceTable.Add | src/util-reference-config.c:265-268 | appends to the hashed chain: the contents gain exactly that entry, count grows by one, and the invariant holds |
| ReferenceConfig.CandidateMeaning | src/util-reference-config.c:246-259 | a line defines an entry exactly when the pattern matches it; for every match, the key is that match's capture 1 lowered; the key is a lower-case system name and the url is non-empty and has no newline |
| ReferenceConfig.InsertEffect | src/util-reference-config.c:259-277 | a new key adds one entry mapped to its url; a present key changes nothing, so the first write wins |
| ReferenceConfig.AddReference | src/util-reference-config.c:226-286 | returns 0 on a match and -1 otherwise; a non-matching line leaves the table unchanged; a match on a new key adds one entry with its url; a match on a present key leaves the table and its url unchanged |
| ReferenceConfig.ParseFile | src/util-reference-config.c:324-342 | the table after the loop is the table before it with every non-skipped line entered in order |
| ReferenceConfig.LoadKeys | src/util-reference-config.c:324-342 | the loaded keys are exactly the lowered names of the matching, non-skipped lines, and their number is the count |
| ReferenceConfig.LoadFirstWins | src/util-reference-config.c:259-277 | each key maps to the url of the first line that defines it |
| ReferenceConfig.LoadKeysAreCanonical | src/util-reference-config.c:353-380 | every stored key is lower case and is its entry's own system name |
| ReferenceConfig.LoadReferenceConfigFile | src/util-reference-config.c:492-503 | an unopenable stream is an error; otherwise a fresh valid table holds what the lines define, with count equal to the number of distinct keys |
| ReferenceConfig.GetReference | src/util-reference-config.c:516-527 | finds an entry exactly when the lowered name is a stored key, returns that entry, and changes nothing |
| ReferenceConfig.LookupIgnoresCase | src/util-reference-config.c:516-527 | two names that differ only in the case of their letters find the same entry, or both find none |
| ReferenceConfigTests.DirectiveDefines | src/util-reference-config.c:541 | a canonical directive with a lower-case name defines that name and url |
| ReferenceConfigTests.LoadFD01 | src/util-reference-config.c:538-552 | FD01 loads to one, two and three with their urls: 3 entries, `four` absent |
| ReferenceConfigTests.LoadFD02 | src/util-reference-config.c:558-572 | FD02 loads to `one` alone |
| ReferenceConfigTests.LoadFD03 | src/util-reference-config.c:578-591 | FD03 loads to nothing |
| ReferenceConfigTests.Test01 | src/util-reference-config.c:610-633 | after FD01 the count is 3 |
| ReferenceConfigTests.Test02 | src/util-reference-config.c:639-661 | after FD03 the count is 0 |
| ReferenceConfigTests.Test03 | src/util-reference-config.c:667-688 | after FD02 the count is 1 |
| ReferenceConfigTests.Test04 | src/util-reference-config.c:694-720 | after FD01, `one`, `two` and `three` are found and `four` is not |
| ReferenceConfigTests.Test05 | src/util-reference-config.c:727-754 | after FD03, none of the five names is found |
| ReferenceConfigTests.Test06 | src/util-reference-config.c:760-787 | after FD02, only `one` is found |
| ReferenceConfigTests.UpperCaseLookup | src/util-reference-config.c:516-527 | after FD01, `ONE` and `One` find the entry of `one`, and `FOUR` finds nothing |

## Left out

- File acquisition: `fopen`, the path lookup through `ConfGet` and the
  `fmemopen` test harness are I/O. The model takes the file as an
  `Option<seq<string>>` of lines, where `None` means it could not be opened.
- The `fgets` 1024-byte buffer: lines are whole lines. A longer line, which
  `fgets` would split in two, is not modelled.
- Embedded NUL bytes: a line is assumed to hold none. `strlen` and the `*line`
  walks would stop at one.
- PCRE compile, study and free, and `pcre_get_substring` failures are
  foreign-library calls. They are replaced by the hand-written recogniser.
- PCRE's `\s` is taken to be the `isspace` set, including vertical tab. That
  is true of PCRE 8.34 and later.
- `exit(EXIT_FAILURE)` when the context cannot be set up is modelled as the
  `Failure(CannotOpen)` result.
- The `exit` in `SCRConfGetReference` is not modelled. It can only follow a
  NULL name or an allocation failure, and the model has neither.
- Allocation failures are not modelled. This covers `SCMalloc`/`SCStrdup`
  returning NULL and a failing `HashTableAdd`. So is the freeing done by
  `SCRConfDeAllocSCRConfReference`, `SCRConfDeInitLocalResources` and
  `SCRConfDeInitContext`.
- `util-hash.c` is not part of this model. Its `HashTableLookup` is taken to
  be a walk of the hashed chain with the compare callback, and its
  `HashTableAdd` an append to the hashed chain with `count` incremented.
  The loader only adds names that are absent, so keys are unique and the
  order of a chain cannot be observed through lookup.
- RefStore.ReferenceTable.Add: requires the name to be absent. The loader only
  calls it after a failed lookup, and the behaviour of `HashTableAdd` on a
  duplicate is not visible in this file.
- RefStore.CompareReferences: the NULL `system` test at line 452 cannot be
  reached, because every entry the file builds has a system name. Entries
  therefore carry a `string`, not an optional one.
- The `SCLog*` diagnostics are not modelled. Neither is the `uint8_t i`
  counter in `SCRConfParseFile`, which is never read.
- The global statics (`fd`, `regex`, `regex_study`, `file_path`) are replaced
  by explicit parameters.
