/**
 Small OWNERS and OWNERS_ALIASES texts and what the engine makes of them,
 derived from the general lemmas about line scanning and entry extraction.
 A text is written as `Join(lines)`: the lines, each ended by '\n'.
 */
module Scenarios {
  import opened GoStrings
  import opened LineScanner
  import opened OwnerChecker

  /** Lines as a file holds them: no '\n' inside, no '\r' at the end. */
  predicate PlainLines(lines: seq<string>) {
    forall l :: l in lines ==> '\n' !in l && !HasSuffix(l, '\r')
  }

  /** Collecting over two lines. */
  lemma CollectTwo(a: string, b: string, entry: string -> Option<string>)
    ensures Collect([a, b], entry) == Found(entry(a)) + Found(entry(b))
  {
    assert [a][..0] == [];
    assert Collect([a], entry) == Found(entry(a));
    assert [a, b][..1] == [a];
  }

  /** Collecting over three lines. */
  lemma CollectThree(a: string, b: string, c: string, entry: string -> Option<string>)
    ensures Collect([a, b, c], entry) == Found(entry(a)) + Found(entry(b)) + Found(entry(c))
  {
    assert [a, b, c][..2] == [a, b];
    CollectTwo(a, b, entry);
  }

  /** Only one '-' is taken off: "--x" gives "-x". */
  lemma OnlyOneDashStripped(x: string)
    requires IsTrimmed(x) && '#' !in x
    ensures UserEntry("--" + x) == Some("-" + x)
  {
    assert IsTrimmed("-" + x);
    assert "--" + x == [] + "-" + [] + ("-" + x) + [] + [];
    DashLineYields([], [], "-" + x, [], []);
  }

  /** A bare '-', or one followed by white space and a comment, gives the empty name. */
  lemma EmptyNamesKept(gap: string, comment: string)
    requires AllSpace(gap) && (comment == [] || comment[0] == '#')
    ensures UserEntry("-" + gap + comment) == Some([])
  {
    assert "-" + gap + comment == [] + "-" + gap + [] + [] + comment;
    DashLineYields([], gap, [], [], comment);
  }

  /**
   An alias-group name stays an owner. The OWNERS file lists the group `team`
   and the user `carol`; the OWNERS_ALIASES file defines `team` with members
   `alice` and `bob`. The loop of parseAliases does pick up `team`, but since
   parseAliases returns nothing, the effective owners are all four names, and
   an organization whose members are the three users still has the group name
   reported as an invalid user.
   */
  lemma TeamNameStaysAnOwner(team: string, carol: string, alice: string, bob: string, note: string)
    requires team != [] && team[0] != '-'
    requires IsTrimmed(team) && '#' !in team && '\n' !in team
    requires IsTrimmed(carol) && '#' !in carol && '\n' !in carol
    requires IsTrimmed(alice) && '#' !in alice && '\n' !in alice
    requires IsTrimmed(bob) && '#' !in bob && '\n' !in bob
    requires '\n' !in note && !HasSuffix(note, '\r')
    ensures team in AliasAccumulator(Join([team + ":", "- " + alice, "- " + bob + " #" + note]))
    ensures Users(Join(["- " + team, "- " + carol])) + Users(Join([team + ":", "- " + alice, "- " + bob + " #" + note]))
      == {team, carol, alice, bob}
    ensures team !in {carol, alice, bob} ==>
      Users(Join(["- " + team, "- " + carol])) + Users(Join([team + ":", "- " + alice, "- " + bob + " #" + note])) - {carol, alice, bob}
      == {team}
  {
    GroupOwners(team, carol);
    GroupAliases(team, alice, bob, note);
    var owners := Users(Join(["- " + team, "- " + carol]));
    var members := Users(Join([team + ":", "- " + alice, "- " + bob + " #" + note]));
    assert owners + members == {team, carol, alice, bob};
  }

  /** The OWNERS file of the example lists the group and one user. */
  lemma GroupOwners(team: string, carol: string)
    requires IsTrimmed(team) && '#' !in team && '\n' !in team
    requires IsTrimmed(carol) && '#' !in carol && '\n' !in carol
    ensures Users(Join(["- " + team, "- " + carol])) == {team, carol}
  {
    var lines := ["- " + team, "- " + carol];
    DashLine(team);
    DashLine(carol);
    assert PlainLines(lines);
    ScanJoin(lines);
    CollectTwo(lines[0], lines[1], UserEntry);
  }

  /** The OWNERS_ALIASES file of the example defines the group with two members. */
  lemma GroupAliases(team: string, alice: string, bob: string, note: string)
    requires team != [] && team[0] != '-'
    requires IsTrimmed(team) && '#' !in team && '\n' !in team
    requires IsTrimmed(alice) && '#' !in alice && '\n' !in alice
    requires IsTrimmed(bob) && '#' !in bob && '\n' !in bob
    requires '\n' !in note && !HasSuffix(note, '\r')
    ensures team in AliasAccumulator(Join([team + ":", "- " + alice, "- " + bob + " #" + note]))
    ensures Users(Join([team + ":", "- " + alice, "- " + bob + " #" + note])) == {alice, bob}
  {
    var lines := [team + ":", "- " + alice, "- " + bob + " #" + note];
    AliasFileLines(team, alice, bob, note);
    GroupLine(team);
    CollectThree(lines[0], lines[1], lines[2], AliasEntry);
    AliasFileUsers(team, alice, bob, note);
  }

  /** The names parseUsers finds in the alias file of the example. */
  lemma AliasFileUsers(team: string, alice: string, bob: string, note: string)
    requires team != [] && team[0] != '-'
    requires IsTrimmed(team) && '#' !in team && '\n' !in team
    requires IsTrimmed(alice) && '#' !in alice && '\n' !in alice
    requires IsTrimmed(bob) && '#' !in bob && '\n' !in bob
    requires '\n' !in note && !HasSuffix(note, '\r')
    ensures Users(Join([team + ":", "- " + alice, "- " + bob + " #" + note])) == {alice, bob}
  {
    var lines := [team + ":", "- " + alice, "- " + bob + " #" + note];
    AliasFileLines(team, alice, bob, note);
    GroupLine(team);
    DashLine(alice);
    CommentedDashLine(bob, note);
    CollectThree(lines[0], lines[1], lines[2], UserEntry);
  }

  /** The alias file of the example scans back into its three lines. */
  lemma AliasFileLines(team: string, alice: string, bob: string, note: string)
    requires team != [] && team[0] != '-'
    requires IsTrimmed(team) && '#' !in team && '\n' !in team
    requires IsTrimmed(alice) && '#' !in alice && '\n' !in alice
    requires IsTrimmed(bob) && '#' !in bob && '\n' !in bob
    requires '\n' !in note && !HasSuffix(note, '\r')
    ensures ScanLines(Join([team + ":", "- " + alice, "- " + bob + " #" + note])) == [team + ":", "- " + alice, "- " + bob + " #" + note]
  {
    var lines := [team + ":", "- " + alice, "- " + bob + " #" + note];
    GroupLine(team);
    DashLine(alice);
    CommentedDashLine(bob, note);
    assert PlainLines(lines);
    ScanJoin(lines);
  }

  /** "- name" gives `name`. */
  lemma DashLine(name: string)
    requires IsTrimmed(name) && '#' !in name && '\n' !in name
    ensures UserEntry("- " + name) == Some(name)
    ensures '\n' !in "- " + name && !HasSuffix("- " + name, '\r')
  {
    assert "- " + name == [] + "-" + " " + name + [] + [];
    DashLineYields([], " ", name, [], []);
  }

  /** "- name #note" gives `name`, whatever the note. */
  lemma CommentedDashLine(name: string, note: string)
    requires IsTrimmed(name) && '#' !in name && '\n' !in name
    requires '\n' !in note && !HasSuffix(note, '\r')
    ensures UserEntry("- " + name + " #" + note) == Some(name)
    ensures '\n' !in "- " + name + " #" + note && !HasSuffix("- " + name + " #" + note, '\r')
  {
    var line := "- " + name + " #" + note;
    assert line == [] + "-" + " " + name + " " + ("#" + note);
    DashLineYields([], " ", name, " ", "#" + note);
    assert line[|line| - 1] == if note == [] then '#' else note[|note| - 1];
  }

  /** A group header "team:" is no user entry, but the alias loop takes `team` from it. */
  lemma GroupLine(team: string)
    requires team != [] && team[0] != '-' && IsTrimmed(team) && '#' !in team && '\n' !in team
    ensures UserEntry(team + ":") == None && AliasEntry(team + ":") == Some(team)
    ensures '\n' !in team + ":" && !HasSuffix(team + ":", '\r')
  {
    var line := team + ":";
    assert IsTrimmed(line);
    TrimSpaceOf([], line, []);
    assert [] + line + [] == line;
    assert TrimSuffix(line, ':') == team;
    TrimSpaceOf([], team, []);
    assert [] + team + [] == team;
  }
}
