# owner_checker audit engine

The owner checker walks every repository of a GitHub organization. For each
one it reads two files:

- `OWNERS`: a list of `- name` entries.
- `OWNERS_ALIASES`: `group:` headers followed by `- member` entries.

It works out the repository's effective owners and reports every owner who
is not a member of the organization. This project models that engine as it
is written in `main.go`, in four modules:

- `GoStrings`: the Go string functions the engine applies to a line.
  - `strings.TrimSpace` over ASCII white space.
  - `HasPrefix`/`TrimPrefix` and `HasSuffix`/`TrimSuffix` with a one-character argument.
  - The first field of `strings.Split(line, "#")`.
- `LineScanner`: how `bufio.Scanner` with `bufio.ScanLines` cuts a text into lines.
  - It splits at each '\n' and drops one trailing '\r'.
  - A last line without '\n' still counts.
  - It gives no lines for empty text.
- `GoMaps`: a Go `map[string]bool`, modelled as a heap object (`BoolMap`).
  - Writes through one reference are seen through every other, as in Go.
  - Includes `maps.Copy`.
- `OwnerChecker`: the engine itself.
  - `parseUsers` and `parseAliases` are loops over the scanned lines that fill a map.
  - `removeMapFromMap` deletes keys from its `keep` argument in place and returns that same map.
  - `usersNotInOrg` appends to a list in a loop.
  - One iteration of `main`'s loop over repositories: the owner file is parsed, the alias names are removed, the alias-file entries are unioned in, and the invalid users are computed.
  - Each loop is proved against a specification function: `Users` gives the names `parseUsers` finds, and `AliasAccumulator` gives what the `parseAliases` loop collects.
  - The lemmas characterise those functions line by line.
- `Scenarios`: small owner and alias files, with what the engine makes of them.

The model follows `main.go` as written. These are the places where the code
does not do what its design evidently intends:

- `parseAliases` always returns a new, empty map (main.go:120). The map its loop fills never reaches the caller, so no alias-group name is ever removed from the owners.
  - `ParseAliases` returns the empty map.
  - Its ghost out-parameter `accumulated` is tied to `AliasAccumulator` and is what the loop had collected.
  - `TeamNameStaysAnOwner` shows the consequence. A group `team` listed in `OWNERS` and defined in `OWNERS_ALIASES` stays an effective owner, and it is reported as an invalid user even when every real user is an organization member.
- `parseUsers` does not skip empty names. A bare `-`, or `- # note`, adds the empty string `""` (main.go:133-134; `EmptyNamesKept`).
- The alias loop keeps the candidate of every line, not only of `group:` lines, when that candidate is non-empty after trimming (main.go:114-117). It cuts at '#' only on lines that end in ':', so a line such as `# x` gives the candidate `# x`, while `:` or `# x:` gives none.

## Model

| member | source | states |
|---|---|---|
| GoStrings.TrimSpace | main.go:127 | the result has no white space at either end and is no longer than the input |
| GoStrings.TrimSpaceSlice | main.go:127 | TrimSpace(s) is a contiguous slice s[i..j] with nothing but white space before i and after j |
| GoStrings.TrimSpaceOf | main.go:127 | for all-space p and q and a trimmed m, TrimSpace(p + m + q) == m: exactly the surrounding white space is removed |
| GoStrings.TrimSpacePadded | main.go:127 | adding white space on either side of any text does not change what TrimSpace returns |
| GoStrings.TrimSpaceNoNewChar | main.go:133 | TrimSpace brings in no character, so a '#'-free text stays '#'-free |
| GoStrings.TrimLeftIsSuffix | main.go:127 | the left trim keeps a suffix of its input and drops only white space |
| GoStrings.TrimRightIsPrefix | main.go:127 | the right trim keeps a prefix of its input and drops only white space |
| GoStrings.TrimLeftAt | main.go:127 | the left trim is determined by the first non-space position: it is s[k..] for that k |
| GoStrings.TrimRightAt | main.go:127 | the right trim is determined by the end of the last non-space: it is s[..k] for that k |
| GoStrings.HasPrefix | main.go:128 | `strings.HasPrefix(s, "-")` holds exactly when the one-character sequence is a prefix of s |
| GoStrings.TrimPrefix | main.go:133 | `strings.TrimPrefix(s, "-")`: when s starts with the character, putting it back in front of the result gives s; otherwise s is returned unchanged |
| GoStrings.HasSuffixIsSuffix | main.go:109 | `strings.HasSuffix(s, ":")` (GoStrings.HasSuffix) holds exactly when s is some text followed by the character |
| GoStrings.TrimSuffix | main.go:114 | `strings.TrimSuffix(s, ":")`: when s ends with the character, the result followed by it gives s; otherwise s is returned unchanged |
| GoStrings.BeforeFirst | main.go:130 | the first field of Split(s, "#") holds no '#'; when it is shorter than s, s has a '#' right after it |
| GoStrings.BeforeFirstIsPrefix | main.go:130 | the first field of Split is a prefix of the line |
| GoStrings.BeforeFirstOf | main.go:130 | for a '#'-free a, the first field of a + "#" + b is a, whatever b is |
| LineScanner.DropCR | main.go:125-126 | one trailing '\r' is removed exactly when the line ends in '\r'; nothing else changes |
| LineScanner.LineEnd | main.go:125-126 | the index of the first '\n', or the length when there is none |
| LineScanner.LineEndAt | main.go:125-126 | the first '\n' position is unique: any k before which there is no '\n' and at which there is one is LineEnd |
| LineScanner.ScanLines | main.go:125-126 | no scanned line contains '\n'; a text has no lines exactly when it is empty |
| LineScanner.ScanLinesFirst | main.go:125-126 | the first line is everything before the first '\n', less a trailing '\r'; scanning continues after it |
| LineScanner.ScanLinesLast | main.go:125-126 | a final non-empty line without '\n' is still a line |
| LineScanner.ScanJoin | main.go:125-126 | scanning the text of '\n'-terminated lines (no '\n' inside, no trailing '\r') gives back exactly those lines |
| GoMaps.BoolMap.constructor | main.go:124 | `map[string]bool{}` is empty |
| GoMaps.BoolMap.Set | main.go:134 | `m[k] = v` updates only key k |
| GoMaps.BoolMap.Delete | main.go:89 | `delete(m, k)` removes only key k, and does nothing if k is absent |
| GoMaps.Copy | main.go:72 | `maps.Copy(dst, src)` leaves dst as old dst overridden by src; src is unchanged when it is a different map |
| OwnerChecker.UserEntry | main.go:127-134 | the name taken from one line has no '#' and no white space at either end |
| OwnerChecker.AliasEntry | main.go:108-117 | the candidate the alias loop takes from one line is non-empty and trimmed |
| OwnerChecker.Users | main.go:123-138 | the set of names parseUsers returns (the set `Collect` of UserEntry over the scanned lines); an empty text gives no names |
| OwnerChecker.AliasAccumulator | main.go:107-119 | the set the parseAliases loop fills (`Collect` of AliasEntry over the scanned lines); an empty text gives nothing |
| OwnerChecker.CollectSize | main.go:126-135 | `Collect`, what the parseUsers loop (and likewise the parseAliases loop, main.go:107-119) accumulates into its map, gains at most one key per scanned line |
| OwnerChecker.ParseUsers | main.go:123-138 | a fresh map whose keys are exactly Users(content), all mapped to true |
| OwnerChecker.ParseAliases | main.go:104-121 | a fresh empty map for every text; the loop's accumulated set is AliasAccumulator(content) and does not reach the result |
| OwnerChecker.RemoveMapFromMap | main.go:87-92 | returns keep itself; keep becomes old keep minus the keys of remove, and the surviving keys keep their values; remove is unchanged unless it is keep |
| OwnerChecker.UsersNotInOrg | main.go:94-102 | no duplicates; u is listed iff u is an owner key and not an org key; the list is empty iff every owner is an org member |
| OwnerChecker.EffectiveOwners | main.go:60-72 | the effective owners are Users(owner text) ∪ Users(alias text), all true; with an empty alias text, exactly Users(owner text) |
| OwnerChecker.AliasText | main.go:55-56 | the alias text main works with: a non-empty alias text always comes from a successful fetch, and a successful fetch gives its content; a failed one gives "" (main.go:197-198) |
| OwnerChecker.AuditRepo | main.go:45-73 | a repository is skipped iff its OWNERS fetch fails; otherwise the report has no duplicates and lists exactly the effective owners outside the org, with a failed alias fetch read as "" (main.go:197-198) |
| OwnerChecker.CollectMembership | main.go:126-135 | a name is collected iff some line yields it |
| OwnerChecker.CollectStep | main.go:126-135 | scanning one more line adds exactly that line's entry |
| OwnerChecker.CollectAppend | main.go:126-135 | collecting over two runs of lines is the union of collecting over each |
| OwnerChecker.LineContribution | main.go:126-135 | each line adds its own entry and nothing else, wherever it sits; it adds a name iff its trimmed form starts with '-' |
| OwnerChecker.UsersMembership | main.go:126-135 | n is found in a text iff some scanned line yields n |
| OwnerChecker.UsersAreClean | main.go:129-133 | no name parseUsers finds contains '#' or has white space at either end |
| OwnerChecker.DashLineYields | main.go:127-134 | any white space around '-' and the name, followed by any '#' comment, yields exactly that name |
| OwnerChecker.UncommentedEntry | main.go:127-134 | an entry line without '#' yields its trimmed name |
| OwnerChecker.CommentedEntry | main.go:129-133 | an entry line with a '#' yields the trimmed text between '-' and the first '#' |
| OwnerChecker.TrimmedBareEntry | main.go:127 | a padded "- name" line trims to "-" followed by the gap and the name ("-" alone for an empty name) |
| OwnerChecker.EntryOfTrimmedLine | main.go:128-133 | a line trimming to '-', a '#'-free body and a comment yields the trimmed body |
| OwnerChecker.NoHashInSpace | main.go:129 | white space holds no '#' |
| OwnerChecker.CommentLineYieldsNothing | main.go:127-128 | a line whose first non-space is '#' (such as "# - alice") yields nothing |
| OwnerChecker.UserEntryPadded | main.go:127 | white space around a line never changes what parseUsers takes from it |
| GoStrings.AllSpaceAppend | main.go:127 | two runs of white space make one |
| GoStrings.SpaceBetween | main.go:127 | each character of an all-space slice is white space |
| Scenarios.CollectTwo | main.go:126-135 | a two-line text collects the entries of both lines |
| Scenarios.CollectThree | main.go:126-135 | a three-line text collects the entries of all three lines |
| Scenarios.OnlyOneDashStripped | main.go:133 | "--x" yields "-x": only one '-' is taken off |
| Scenarios.EmptyNamesKept | main.go:133-134 | "-", or "-" with white space and a comment, yields the empty name |
| Scenarios.DashLine | main.go:127-134 | "- name" yields name |
| Scenarios.CommentedDashLine | main.go:129-133 | "- name #note" yields name, whatever the note |
| Scenarios.GroupLine | main.go:108-117 | "team:" yields no user, but the alias loop takes team from it |
| Scenarios.AliasFileLines | main.go:106-107 | the example alias file scans back into its three lines |
| Scenarios.AliasFileUsers | main.go:123-138 | parseUsers finds {alice, bob} in the example alias file; the group header gives no name |
| Scenarios.GroupOwners | main.go:123-138 | the owner file "- team", "- carol" yields {team, carol} |
| Scenarios.GroupAliases | main.go:104-138 | the alias file "team:", "- alice", "- bob #note" yields users {alice, bob}, and its alias loop collects team |
| Scenarios.TeamNameStaysAnOwner | main.go:60-73 | the effective owners of the example are {team, carol, alice, bob}; with org members {carol, alice, bob}, team is the one invalid user |

## Left out

- The `githubClient` methods `getOrgUsers`, `getOrgReposNames` and `getFileContent` (main.go:140-207) are left out. They make network calls through the go-github library, whose code is not part of this model.
  - A fetch result is a parameter of `AuditRepo` (`Fetched`).
  - The organization's members are a `BoolMap` parameter.
- The token from the environment, `os.Exit`, console output, the repository counter and the final report (main.go:21-43, 75-84) are I/O and are left out.
- The classification of fetch errors by the text "404" (main.go:46-59) is left out. It only decides what is printed. Any OWNERS fetch error skips the repository, and any alias fetch error leaves the alias text empty (main.go:197-198).
- OwnerChecker.UsersNotInOrg: Go map iteration order is unspecified. The result is a duplicate-free sequence whose elements are fixed but whose order is not. Go's nil-versus-empty slice distinction is not modelled.
- OwnerChecker.RemoveMapFromMap, GoMaps.Copy and OwnerChecker.UsersNotInOrg iterate over their maps in an arbitrary order, chosen nondeterministically. The new map of RemoveMapFromMap and of Copy does not depend on that order. For UsersNotInOrg only the set of listed names is independent of it; the order of the list is not.
- GoStrings.TrimSpace: only ASCII white space is trimmed. Go's `strings.TrimSpace` also removes Unicode white space such as U+0085 and U+00A0.
- LineScanner.ScanLines: `bufio.Scanner`'s 64 KiB limit on a line is not modelled. A longer line would stop the scan early, and the scanner's error is never checked in main.go.
- Text is a sequence of characters, not UTF-8 bytes. Every separator the engine looks for is ASCII, so byte-level decoding does not affect which names are found.
