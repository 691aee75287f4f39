/**
 The audit engine of the owner checker. For each repository it reads the
 OWNERS file and the OWNERS_ALIASES file, collects the "- name" entries of
 both, takes out the alias-group names and reports every remaining owner who
 is not a member of the organization.
 */
module OwnerChecker {
  import opened GoStrings
  import opened LineScanner
  import opened GoMaps

  datatype Option<T> = None | Some(value: T)

  /** The singleton set of a present value, the empty set otherwise. */
  function Found(o: Option<string>): set<string> {
    if o.Some? then {o.value} else {}
  }

  /**
   The name parseUsers takes from one scanned line: a line that starts with
   '-' once trimmed, cut at its first '#', without that '-' and trimmed again.
   Any other line gives nothing. An empty name is kept.
   */
  function UserEntry(raw: string): (r: Option<string>)
    ensures r.Some? ==> '#' !in r.value && IsTrimmed(r.value)
  {
    var line := TrimSpace(raw);
    if HasPrefix(line, '-') then
      var cut := if '#' in line then BeforeFirst(line, '#') else line;
      var rest := TrimPrefix(cut, '-');
      assert '#' !in rest by {
        assert forall i :: 0 <= i < |rest| ==> rest[i] == cut[|cut| - |rest| + i];
      }
      TrimSpaceNoNewChar(rest, '#');
      Some(TrimSpace(rest))
    else
      None
  }

  /**
   What the loop of parseAliases accumulates from one scanned line: the
   trimmed line without one trailing ':', cut at its first '#' only when the
   trimmed line ends in ':'. Every non-empty candidate is kept, whether or not
   the line defined a group.
   */
  function AliasEntry(raw: string): (r: Option<string>)
    ensures r.Some? ==> r.value != [] && IsTrimmed(r.value)
  {
    var line := TrimSpace(raw);
    var cut := if HasSuffix(line, ':') then (if '#' in line then BeforeFirst(line, '#') else line) else line;
    var alias := TrimSpace(TrimSuffix(cut, ':'));
    if alias != [] then Some(alias) else None
  }

  /** The set of everything `entry` takes from the lines. */
  function Collect(lines: seq<string>, entry: string -> Option<string>): set<string> {
    if lines == [] then {}
    else Collect(lines[..|lines| - 1], entry) + Found(entry(lines[|lines| - 1]))
  }

  /** The names parseUsers finds in a text. */
  function Users(content: string): (r: set<string>)
    ensures content == [] ==> r == {}
  {
    Collect(ScanLines(content), UserEntry)
  }

  /** The names the loop of parseAliases accumulates from a text (and then drops). */
  ghost function AliasAccumulator(content: string): (r: set<string>)
    ensures content == [] ==> r == {}
  {
    Collect(ScanLines(content), AliasEntry)
  }

  predicate NoDuplicates(s: seq<string>) {
    forall i, j :: 0 <= i < j < |s| ==> s[i] != s[j]
  }

  /** parseUsers: the set of user names listed in a text, as a fresh map whose values are all true. */
  method ParseUsers(content: string) returns (users: BoolMap)
    ensures fresh(users)
    ensures users.entries.Keys == Users(content) && AllTrue(users.entries)
  {
    users := new BoolMap();
    var lines := ScanLines(content);
    for i := 0 to |lines|
      invariant users.entries.Keys == Collect(lines[..i], UserEntry)
      invariant AllTrue(users.entries)
    {
      var line := TrimSpace(lines[i]);
      if HasPrefix(line, '-') {
        if '#' in line {
          line := BeforeFirst(line, '#');
        }
        var name := TrimSpace(TrimPrefix(line, '-'));
        users.Set(name, true);
        assert UserEntry(lines[i]) == Some(name);
      } else {
        assert UserEntry(lines[i]) == None;
      }
      CollectStep(lines, i, UserEntry);
    }
    assert lines[..|lines|] == lines;
  }

  /**
   parseAliases as written: the loop fills a map of candidate alias names,
   but the function returns a new empty map, whatever the text. The ghost
   `accumulated` is what the loop had collected when it was dropped.
   */
  method ParseAliases(content: string) returns (result: BoolMap, ghost accumulated: set<string>)
    ensures fresh(result) && result.entries == map[]
    ensures accumulated == AliasAccumulator(content)
  {
    var aliases := new BoolMap();
    var lines := ScanLines(content);
    for i := 0 to |lines|
      invariant aliases.entries.Keys == Collect(lines[..i], AliasEntry)
    {
      var line := TrimSpace(lines[i]);
      if HasSuffix(line, ':') {
        if '#' in line {
          line := BeforeFirst(line, '#');
        }
      }
      var alias := TrimSpace(TrimSuffix(line, ':'));
      if alias != "" {
        aliases.Set(alias, true);
      }
      assert AliasEntry(lines[i]) == if alias != "" then Some(alias) else None;
      CollectStep(lines, i, AliasEntry);
    }
    assert lines[..|lines|] == lines;
    accumulated := aliases.entries.Keys;
    result := new BoolMap();
  }

  /**
   removeMapFromMap: deletes every key of `remove` from `keep`, in place, and
   returns `keep` itself. Values of the keys that stay are untouched. When
   both arguments are the same map it ends up empty.
   */
  method RemoveMapFromMap(remove: BoolMap, keep: BoolMap) returns (r: BoolMap)
    modifies keep
    ensures r == keep
    ensures keep.entries == old(keep.entries) - old(remove.entries).Keys
    ensures remove != keep ==> remove.entries == old(remove.entries)
  {
    var pending := remove.entries.Keys;
    while pending != {}
      invariant pending <= old(remove.entries).Keys
      invariant keep.entries == old(keep.entries) - (old(remove.entries).Keys - pending)
      invariant remove != keep ==> remove.entries == old(remove.entries)
      decreases pending
    {
      var k :| k in pending;
      keep.Delete(k);
      pending := pending - {k};
    }
    r := keep;
  }

  /**
   usersNotInOrg: every owner that is not a key of the organization map,
   each once, in no particular order; nothing when every owner is a member.
   */
  method UsersNotInOrg(orgUsers: BoolMap, ownerUsers: BoolMap) returns (invalidUsers: seq<string>)
    ensures NoDuplicates(invalidUsers)
    ensures forall u :: u in invalidUsers <==> u in ownerUsers.entries && u !in orgUsers.entries
    ensures invalidUsers == [] <==> ownerUsers.entries.Keys <= orgUsers.entries.Keys
  {
    invalidUsers := [];
    var pending := ownerUsers.entries.Keys;
    while pending != {}
      invariant pending <= ownerUsers.entries.Keys
      invariant NoDuplicates(invalidUsers)
      invariant forall u :: u in invalidUsers <==> u in ownerUsers.entries && u !in pending && u !in orgUsers.entries
      decreases pending
    {
      var k :| k in pending;
      if k !in orgUsers.entries {
        invalidUsers := invalidUsers + [k];
      }
      pending := pending - {k};
    }
    assert invalidUsers != [] ==> invalidUsers[0] in invalidUsers;
  }

  /**
   The owners of one repository once aliases are resolved: the owner entries,
   less the alias names (of which parseAliases gives none), plus every entry
   of the alias file. An empty alias text is not parsed at all.
   */
  method EffectiveOwners(ownerContent: string, aliasesContent: string) returns (ownerUsers: BoolMap)
    ensures fresh(ownerUsers) && AllTrue(ownerUsers.entries)
    ensures ownerUsers.entries.Keys == Users(ownerContent) + Users(aliasesContent)
    ensures aliasesContent == "" ==> ownerUsers.entries.Keys == Users(ownerContent)
  {
    var aliases := new BoolMap();
    var aliasUsers := new BoolMap();
    if aliasesContent != "" {
      aliasUsers := ParseUsers(aliasesContent);
      ghost var dropped;
      aliases, dropped := ParseAliases(aliasesContent);
    }
    ownerUsers := ParseUsers(ownerContent);
    ownerUsers := RemoveMapFromMap(aliases, ownerUsers);
    Copy(ownerUsers, aliasUsers);
  }

  /** What fetching one file of a repository gives: its text, or an error (a missing file among them). */
  datatype Fetched = Content(text: string) | FetchError

  /** The alias text main works with: a failed fetch leaves it empty. */
  function AliasText(f: Fetched): (r: string)
    ensures r != "" ==> f == Content(r)
    ensures f.Content? ==> r == f.text
  {
    if f.Content? then f.text else ""
  }

  /**
   One iteration of main's loop over the repositories: a repository whose
   OWNERS file cannot be fetched is skipped; otherwise the invalid users of
   its effective owners are reported.
   */
  method AuditRepo(orgUsers: BoolMap, ownersFile: Fetched, aliasesFile: Fetched) returns (report: Option<seq<string>>)
    ensures report.None? <==> ownersFile.FetchError?
    ensures report.Some? ==> NoDuplicates(report.value)
    ensures report.Some? ==> forall u :: u in report.value <==>
      u in Users(ownersFile.text) + Users(AliasText(aliasesFile)) && u !in orgUsers.entries
  {
    if ownersFile.FetchError? {
      return None;
    }
    var ownerUsers := EffectiveOwners(ownersFile.text, AliasText(aliasesFile));
    var invalidUsers := UsersNotInOrg(orgUsers, ownerUsers);
    report := Some(invalidUsers);
  }

  /** A name is found exactly when some line gives it. */
  lemma {:induction false} CollectMembership(lines: seq<string>, entry: string -> Option<string>, n: string)
    ensures n in Collect(lines, entry) <==> exists i :: 0 <= i < |lines| && entry(lines[i]) == Some(n)
  {
    if lines != [] {
      var init := lines[..|lines| - 1];
      CollectMembership(init, entry, n);
      if n in Collect(init, entry) {
        var i :| 0 <= i < |init| && entry(init[i]) == Some(n);
        assert lines[i] == init[i];
      }
      if exists i :: 0 <= i < |lines| && entry(lines[i]) == Some(n) {
        var i :| 0 <= i < |lines| && entry(lines[i]) == Some(n);
        if i < |init| {
          assert init[i] == lines[i];
        }
      }
    }
  }

  /** Each line gives at most one element. */
  lemma {:induction false} CollectSize(lines: seq<string>, entry: string -> Option<string>)
    ensures |Collect(lines, entry)| <= |lines|
  {
    if lines != [] {
      CollectSize(lines[..|lines| - 1], entry);
    }
  }

  /** One more line scanned adds that line's entry. */
  lemma CollectStep(lines: seq<string>, i: nat, entry: string -> Option<string>)
    requires i < |lines|
    ensures Collect(lines[..i + 1], entry) == Collect(lines[..i], entry) + Found(entry(lines[i]))
  {
    assert lines[..i + 1][..i] == lines[..i];
  }

  /** Collecting over two runs of lines collects over each. */
  lemma {:induction false} CollectAppend(a: seq<string>, b: seq<string>, entry: string -> Option<string>)
    ensures Collect(a + b, entry) == Collect(a, entry) + Collect(b, entry)
  {
    if b != [] {
      var b' := b[..|b| - 1];
      assert (a + b)[..|a + b| - 1] == a + b';
      CollectAppend(a, b', entry);
    } else {
      assert a + b == a;
    }
  }

  /**
   Each line contributes its own entry and nothing else: a line whose trimmed
   form starts with '-' adds exactly its name, any other line adds nothing.
   */
  lemma LineContribution(before: seq<string>, line: string, after: seq<string>)
    ensures Collect(before + [line] + after, UserEntry) == Collect(before + after, UserEntry) + Found(UserEntry(line))
    ensures UserEntry(line).Some? <==> HasPrefix(TrimSpace(line), '-')
  {
    CollectAppend(before + [line], after, UserEntry);
    CollectAppend(before, [line], UserEntry);
    CollectAppend(before, after, UserEntry);
    assert [line][..0] == [];
  }

  /** parseUsers finds a name exactly when some line of the text gives it. */
  lemma UsersMembership(content: string, n: string)
    ensures n in Users(content) <==> exists line :: line in ScanLines(content) && UserEntry(line) == Some(n)
  {
    var lines := ScanLines(content);
    CollectMembership(lines, UserEntry, n);
    if exists line :: line in lines && UserEntry(line) == Some(n) {
      var line :| line in lines && UserEntry(line) == Some(n);
      var i :| 0 <= i < |lines| && lines[i] == line;
    }
  }

  /** No name parseUsers finds has a '#' or white space at either end. */
  lemma UsersAreClean(content: string)
    ensures forall n :: n in Users(content) ==> '#' !in n && IsTrimmed(n)
  {
    forall n | n in Users(content) ensures '#' !in n && IsTrimmed(n) {
      UsersMembership(content, n);
    }
  }

  /**
   A line "- name" gives `name` however much white space surrounds the '-'
   and the name, and whatever comment follows: only one '-' is taken off
   (so "--x" gives "-x"), and an empty name ("-", "- # note") is kept.
   */
  lemma DashLineYields(lead: string, gap: string, name: string, trail: string, comment: string)
    requires AllSpace(lead) && AllSpace(gap) && AllSpace(trail)
    requires IsTrimmed(name) && '#' !in name
    requires comment == [] || comment[0] == '#'
    ensures UserEntry(lead + "-" + gap + name + trail + comment) == Some(name)
  {
    if comment == [] {
      assert lead + "-" + gap + name + trail + comment == lead + "-" + gap + name + trail;
      UncommentedEntry(lead, gap, name, trail);
    } else {
      assert comment == "#" + comment[1..];
      assert lead + "-" + gap + name + trail + comment == lead + "-" + gap + name + trail + "#" + comment[1..];
      CommentedEntry(lead, gap, name, trail, comment[1..]);
    }
  }

  lemma UncommentedEntry(lead: string, gap: string, name: string, trail: string)
    requires AllSpace(lead) && AllSpace(gap) && AllSpace(trail)
    requires IsTrimmed(name) && '#' !in name
    ensures UserEntry(lead + "-" + gap + name + trail) == Some(name)
  {
    var s := lead + "-" + gap + name + trail;
    TrimmedBareEntry(lead, gap, name, trail);
    NoHashInSpace(gap);
    if name == [] {
      assert TrimSpace(s) == "-" + [] + [];
      EntryOfTrimmedLine(s, [], []);
      TrimSpaceOf([], [], []);
    } else {
      assert TrimSpace(s) == "-" + (gap + name) + [];
      EntryOfTrimmedLine(s, gap + name, []);
      TrimSpaceOf(gap, name, []);
      assert gap + name + [] == gap + name;
    }
  }

  lemma CommentedEntry(lead: string, gap: string, name: string, trail: string, c: string)
    requires AllSpace(lead) && AllSpace(gap) && AllSpace(trail)
    requires IsTrimmed(name) && '#' !in name
    ensures UserEntry(lead + "-" + gap + name + trail + "#" + c) == Some(name)
  {
    var g := gap + name + trail;
    var s := lead + "-" + gap + name + trail + "#" + c;
    NoHashInSpace(gap);
    NoHashInSpace(trail);
    assert '#' !in g;
    var t := TrimRight(c);
    TrimRightIsPrefix(c);
    assert c == t + c[|t|..];
    var m := "-" + g + ("#" + t);
    assert s == lead + m + c[|t|..];
    TrimSpaceOf(lead, m, c[|t|..]);
    EntryOfTrimmedLine(s, g, "#" + t);
    TrimSpaceOf(gap, name, trail);
  }

  /** Without a comment, a trimmed entry line is the '-' followed by the name. */
  lemma TrimmedBareEntry(lead: string, gap: string, name: string, trail: string)
    requires AllSpace(lead) && AllSpace(gap) && AllSpace(trail) && IsTrimmed(name)
    ensures TrimSpace(lead + "-" + gap + name + trail) == if name == [] then "-" else "-" + gap + name
  {
    var s := lead + "-" + gap + name + trail;
    if name == [] {
      assert s == lead + "-" + (gap + trail);
      AllSpaceAppend(gap, trail);
      TrimSpaceOf(lead, "-", gap + trail);
    } else {
      assert s == lead + ("-" + gap + name) + trail;
      TrimSpaceOf(lead, "-" + gap + name, trail);
    }
  }

  /**
   Once a line is trimmed to '-', a '#'-free body `g` and what follows from
   the first '#' on, parseUsers takes the trimmed body as the name.
   */
  lemma EntryOfTrimmedLine(raw: string, g: string, c: string)
    requires '#' !in g && (c == [] || c[0] == '#')
    requires TrimSpace(raw) == "-" + g + c
    ensures UserEntry(raw) == Some(TrimSpace(g))
  {
    var line := TrimSpace(raw);
    assert HasPrefix(line, '-');
    if c == [] {
      assert line == "-" + g;
      assert '#' !in line;
    } else {
      assert line == ("-" + g) + [c[0]] + c[1..];
      BeforeFirstOf("-" + g, '#', c[1..]);
    }
    assert ("-" + g)[1..] == g;
  }

  lemma NoHashInSpace(s: string)
    requires AllSpace(s)
    ensures '#' !in s
  {
    assert forall i :: 0 <= i < |s| ==> s[i] != '#';
  }

  /** A commented-out entry such as "# - alice" gives nothing. */
  lemma CommentLineYieldsNothing(lead: string, rest: string)
    requires AllSpace(lead)
    ensures UserEntry(lead + "#" + rest) == None
  {
    var t := TrimRight(rest);
    TrimRightIsPrefix(rest);
    assert rest == t + rest[|t|..];
    assert lead + "#" + rest == lead + ("#" + t) + rest[|t|..];
    TrimSpaceOf(lead, "#" + t, rest[|t|..]);
  }

  /** White space around a line never changes what parseUsers takes from it. */
  lemma UserEntryPadded(p: string, raw: string, q: string)
    requires AllSpace(p) && AllSpace(q)
    ensures UserEntry(p + raw + q) == UserEntry(raw)
  {
    TrimSpacePadded(p, raw, q);
  }
}
