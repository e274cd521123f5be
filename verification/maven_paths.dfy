/** GAVs of jars in a Maven-layout repository, derived in two different ways. */
module MavenPaths {

  /** The segments of a path below the repository root. */
  type Path = seq<string>

  function Join(segments: seq<string>, sep: char): string {
    if |segments| == 0 then ""
    else if |segments| == 1 then segments[0]
    else Join(segments[..|segments| - 1], sep) + [sep] + segments[|segments| - 1]
  }

  /** All fields of a separated string, empty ones included. */
  function Fields(s: string, sep: char): (r: seq<string>)
    ensures r != []
  {
    if s == "" then [""]
    else
      var r, c := Fields(s[..|s| - 1], sep), s[|s| - 1];
      if c == sep then r + [""] else r[..|r| - 1] + [r[|r| - 1] + [c]]
  }

  function DropTrailingEmpty(fields: seq<string>): seq<string> {
    if fields != [] && fields[|fields| - 1] == "" then DropTrailingEmpty(fields[..|fields| - 1]) else fields
  }

  /** String.split on one character: trailing empty fields are dropped. */
  function Split(s: string, sep: char): seq<string> {
    if s == "" then [""] else DropTrailingEmpty(Fields(s, sep))
  }

  function Replace(s: string, from: char, to: char): string {
    seq(|s|, i requires 0 <= i < |s| => if s[i] == from then to else s[i])
  }

  ghost predicate ValidPath(p: Path) {
    forall i | 0 <= i < |p| :: p[i] != "" && '/' !in p[i]
  }

  lemma {:induction false} FieldsAppend(s: string, field: string, sep: char)
    requires sep !in field
    ensures var r := Fields(s, sep); Fields(s + field, sep) == r[..|r| - 1] + [r[|r| - 1] + field]
  {
    var r := Fields(s, sep);
    if field == "" {
      assert s + field == s;
      assert r[|r| - 1] + field == r[|r| - 1];
    } else {
      var init := field[..|field| - 1];
      FieldsAppend(s, init, sep);
      assert (s + field)[..|s + field| - 1] == s + init;
      assert field == init + [field[|field| - 1]];
      assert (r[|r| - 1] + init) + [field[|field| - 1]] == r[|r| - 1] + field;
    }
  }

  lemma {:induction false} FieldsOfJoin(p: seq<string>, sep: char)
    requires p != [] && forall i | 0 <= i < |p| :: sep !in p[i]
    ensures Fields(Join(p, sep), sep) == p
  {
    var init, last := p[..|p| - 1], p[|p| - 1];
    if |p| == 1 {
      FieldsAppend("", p[0], sep);
      assert "" + p[0] == p[0];
    } else {
      FieldsOfJoin(init, sep);
      var s := Join(init, sep) + [sep];
      assert s[..|s| - 1] == Join(init, sep);
      assert Fields(s, sep) == init + [""];
      FieldsAppend(s, last, sep);
      assert Join(p, sep) == s + last;
      assert (init + [""])[..|init|] == init && "" + last == last;
      assert p == init + [last];
    }
  }

  lemma JoinNonEmpty(p: Path, sep: char)
    requires p != [] && ValidPath(p)
    ensures Join(p, sep) != ""
  {
  }

  /** Splitting a printed path gives its segments back. */
  lemma SplitOfJoin(p: Path)
    requires p != [] && ValidPath(p)
    ensures Split(Join(p, '/'), '/') == p
  {
    FieldsOfJoin(p, '/');
    JoinNonEmpty(p, '/');
  }

  /** Printing a path and then changing its slashes to dots joins its segments with dots. */
  lemma {:induction false} ReplaceOfJoin(p: Path)
    requires ValidPath(p)
    ensures Replace(Join(p, '/'), '/', '.') == Join(p, '.')
  {
    if |p| > 0 {
      var init, last := p[..|p| - 1], p[|p| - 1];
      assert Replace(last, '/', '.') == last;
      if |p| > 1 {
        ReplaceOfJoin(init);
        assert Replace(Join(init, '/') + ['/'] + last, '/', '.') == Replace(Join(init, '/'), '/', '.') + ['.'] + Replace(last, '/', '.');
      }
    }
  }

  /** The GAV the index pass builds from the fields of a relative path. */
  method IndexGav(relative: seq<string>) returns (gav: string)
    requires |relative| >= 3
    ensures gav == GavOf(relative)
  {
    var version := relative[|relative| - 2];
    var artifact := relative[|relative| - 3];
    var group := "";
    for i := 0 to |relative| - 3
      invariant group == Join(relative[..i], '.')
    {
      assert relative[..i + 1][..i] == relative[..i];
      if i != 0 {
        group := group + ".";
      }
      group := group + relative[i];
    }
    gav := group + ":" + artifact + ":" + version;
  }

  /** group:artifact:version, with the group's directories joined by dots. */
  function GavOf(p: Path): string
    requires |p| >= 3
  {
    Join(p[..|p| - 3], '.') + ":" + p[|p| - 3] + ":" + p[|p| - 2]
  }

  /** The GAV the reporting pass takes from the directories above a jar. */
  function ReportedGav(p: Path): string
    requires |p| >= 3
  {
    Replace(Join(p[..|p| - 3], '/'), '/', '.') + ":" + p[|p| - 3] + ":" + p[|p| - 2]
  }

  /** Both passes name the same jar alike. */
  lemma SameGav(p: Path)
    requires |p| >= 3 && ValidPath(p)
    ensures Split(Join(p, '/'), '/') == p
    ensures ReportedGav(p) == GavOf(Split(Join(p, '/'), '/'))
  {
    SplitOfJoin(p);
    ReplaceOfJoin(p[..|p| - 3]);
  }

  lemma {:induction false} JoinHolds(p: seq<string>, sep: char, c: char)
    requires c != sep && forall i | 0 <= i < |p| :: c !in p[i]
    ensures c !in Join(p, sep)
  {
    if |p| > 1 { JoinHolds(p[..|p| - 1], sep, c); }
  }

  lemma ThreeFields(a: string, b: string, c: string)
    requires ':' !in a && ':' !in b && ':' !in c
    ensures Fields(a + ":" + b + ":" + c, ':') == [a, b, c]
  {
    assert [a, b, c][..2] == [a, b] && [a, b][..1] == [a];
    assert Join([a, b], ':') == a + [':'] + b;
    FieldsOfJoin([a, b, c], ':');
  }

  /** A GAV gives back what it was made of: the directories of the group, the artifact and the version. */
  lemma GavFields(p: Path)
    requires |p| > 3 && forall i | 0 <= i < |p| :: ':' !in p[i]
    requires forall i | 0 <= i < |p| - 3 :: '.' !in p[i]
    ensures var fields := Fields(GavOf(p), ':');
            |fields| == 3 && Fields(fields[0], '.') == p[..|p| - 3] && fields[1] == p[|p| - 3] && fields[2] == p[|p| - 2]
  {
    JoinHolds(p[..|p| - 3], '.', ':');
    FieldsOfJoin(p[..|p| - 3], '.');
    ThreeFields(Join(p[..|p| - 3], '.'), p[|p| - 3], p[|p| - 2]);
  }
}
