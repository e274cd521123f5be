/** What a deploy run reads and leaves, said of annotations, texts and images themselves. */
module DeployMeaning {
  import opened Wrappers
  import opened Deploy
  import opened DeploySafety
  import opened DeployResume

  // ---- Version texts ----

  predicate Digits(s: string) {
    forall i | 0 <= i < |s| :: '0' <= s[i] <= '9'
  }

  /** The digit `d` with `n` more digits behind it. */
  function Scaled(d: nat, n: nat): nat {
    if n == 0 then d else 10 * Scaled(d, n - 1)
  }

  /** The number a string of digits stands for, digit by digit from the front. */
  function Value(s: string): nat
    requires Digits(s)
  {
    if s == "" then 0 else Scaled(s[0] as int - '0' as int, |s| - 1) + Value(s[1..])
  }

  lemma {:induction false} ValueOfLast(s: string)
    requires Digits(s) && s != ""
    ensures Value(s) == 10 * Value(s[..|s| - 1]) + (s[|s| - 1] as int - '0' as int)
  {
    if |s| == 1 {
      assert s[1..] == "" && s[..0] == "";
    } else {
      ValueOfLast(s[1..]);
      assert s[1..][..|s| - 2] == s[..|s| - 1][1..];
    }
  }

  lemma {:induction false} ParseDigitsIff(s: string, n: nat)
    ensures ParseDigits(s) == Some(n) <==> Digits(s) && Value(s) == n
  {
    if s != "" {
      var init := s[..|s| - 1];
      if Digits(s) {
        ValueOfLast(s);
        ParseDigitsIff(init, Value(init));
      } else if ParseDigits(init).Some? {
        ParseDigitsIff(init, ParseDigits(init).value);
      }
    }
  }

  ghost predicate Is32Bit(v: int) {
    -0x8000_0000 <= v < 0x8000_0000
  }

  ghost function Signed(sign: string, n: nat): int {
    if sign == "-" then 0 - n else n
  }

  ghost predicate Numeral(s: string, sign: string, digits: string, v: int) {
    && s == sign + digits && sign in {"", "+", "-"}
    && digits != "" && Digits(digits) && v == Signed(sign, Value(digits))
  }

  /** The text is a number of 32 bits in decimal: an optional sign and at least one digit. */
  ghost predicate ReadsAs(s: string, v: int) {
    Is32Bit(v) && exists sign, digits :: Numeral(s, sign, digits, v)
  }

  lemma NumeralParses(s: string, sign: string, digits: string, v: int)
    requires Numeral(s, sign, digits, v)
    ensures ParseInt(s) == if Is32Bit(v) then Some(v) else None
  {
    ParseDigitsIff(digits, Value(digits));
    if sign == "" {
      assert s == digits;
      assert '0' <= digits[0] <= '9';
    } else {
      assert s[0] == sign[0] && s[1..] == digits;
    }
  }

  lemma ParsedIsNumeral(s: string) returns (sign: string, digits: string)
    requires ParseInt(s).Some?
    ensures Numeral(s, sign, digits, ParseInt(s).value)
  {
    var signed := s[0] == '-' || s[0] == '+';
    sign, digits := if signed then [s[0]] else "", if signed then s[1..] else s;
    ParseDigitsIff(digits, ParseDigits(digits).value);
    assert s == sign + digits;
  }

  /** A version parses exactly as the number it stands for. */
  lemma ParseIntIff(s: string, v: int)
    ensures ParseInt(s) == Some(v) <==> ReadsAs(s, v)
  {
    if ReadsAs(s, v) {
      var sign, digits :| Numeral(s, sign, digits, v);
      NumeralParses(s, sign, digits, v);
    }
    if ParseInt(s) == Some(v) {
      var sign, digits := ParsedIsNumeral(s);
    }
  }

  function Digit(n: nat): char
    requires n < 10
  {
    '0' + n as char
  }

  /** Integer.toString */
  function PrintNat(n: nat): string {
    if n < 10 then [Digit(n)] else PrintNat(n / 10) + [Digit(n % 10)]
  }

  function Print(v: int): string {
    if v < 0 then "-" + PrintNat(-v) else PrintNat(v)
  }

  lemma {:induction false} PrintedDigits(n: nat)
    ensures PrintNat(n) != "" && Digits(PrintNat(n)) && Value(PrintNat(n)) == n
  {
    ghost var s := PrintNat(n);
    if n >= 10 {
      PrintedDigits(n / 10);
      assert s[..|s| - 1] == PrintNat(n / 10);
    } else {
      assert s[..|s| - 1] == "";
    }
    ValueOfLast(s);
  }

  /** A printed number parses as itself if it has 32 bits, and not at all otherwise. */
  lemma PrintedParses(v: int)
    ensures ParseInt(Print(v)) == if -0x8000_0000 <= v < 0x8000_0000 then Some(v) else None
  {
    var n: nat := if v < 0 then -v else v;
    PrintedDigits(n);
    assert PrintNat(n) == "" + PrintNat(n);
    NumeralParses(Print(v), if v < 0 then "-" else "", PrintNat(n), v);
  }

  /** Marked: the version is there and reads as 3, however it is written. */
  lemma MarkedIff(a: Rebuilt)
    ensures Marked(a) <==> a.annotations.Some? && DeployedVersion in a.annotations.value && ReadsAs(a.annotations.value[DeployedVersion], 3)
  {
    if VersionText(a).Some? { ParseIntIff(VersionText(a).value, 3); }
  }

  /** Unreadable: the version is there and reads as no number. */
  lemma UnreadableIff(a: Rebuilt)
    ensures Unreadable(a) <==>
              && a.annotations.Some? && DeployedVersion in a.annotations.value
              && forall v :: !ReadsAs(a.annotations.value[DeployedVersion], v)
  {
    if VersionText(a).Some? {
      var s := VersionText(a).value;
      forall v ensures ParseInt(s) == Some(v) <==> ReadsAs(s, v) { ParseIntIff(s, v); }
      if ParseInt(s).Some? { assert ReadsAs(s, ParseInt(s).value); }
    }
  }

  // ---- What a run leaves ----

  /** The value of an annotation, if it is there. */
  function Annotation(a: Rebuilt, key: Key): Option<string> {
    if a.annotations.Some? && key in a.annotations.value then Some(a.annotations.value[key]) else None
  }

  lemma MarkAnnotates(a: Rebuilt, key: Key)
    ensures Annotation(WithMark(a), key) == if key == DeployedVersion then Some("3") else Annotation(a, key)
    ensures WithMark(a).image == a.image
  {
  }

  /**
   * Wherever a run stops, forced or not: images and all annotations but the version are as they were, and an artifact that
   * changed carries the version "3", has been listed, and has an image that can be extracted.
   */
  lemma StoppedRunAnnotations(w: World, w': World, o: Options, stop: nat, n: Name)
    requires StoppedRun(w, w', o, stop) && n in w.artifacts
    ensures w'.artifacts.Keys == w.artifacts.Keys
    ensures var a, b := w.artifacts[n], w'.artifacts[n];
            && b.image == a.image
            && (forall key | key != DeployedVersion :: Annotation(b, key) == Annotation(a, key))
            && (b != a ==> Annotation(b, DeployedVersion) == Some("3") && n in o.listing
                           && a.image.Some? && o.available(a.image.value) == Present && a.image.value in w'.deployed)
  {
    var all := PlanOf(w.artifacts, o).actions;
    var actions := all[..stop];
    var a := w.artifacts[n];
    ApplyFacts(w, actions);
    forall key ensures Annotation(WithMark(a), key) == if key == DeployedVersion then Some("3") else Annotation(a, key) {
      MarkAnnotates(a, key);
    }
    if MarkArtifact(n) in actions {
      MarkedWasPresent(w.artifacts, o, n);
      MarkedWasDeployed(w.artifacts, o, n, stop);
    }
  }

  lemma MarkedWasDeployed(artifacts: map<Name, Rebuilt>, o: Options, n: Name, stop: nat)
    requires var all := PlanOf(artifacts, o).actions; stop <= |all| && MarkArtifact(n) in all[..stop]
    ensures n in artifacts && artifacts[n].image.Some?
    ensures DeployImage(artifacts[n].image.value) in PlanOf(artifacts, o).actions[..stop]
  {
    var all := PlanOf(artifacts, o).actions;
    PlanFollows(artifacts, o, |o.order|);
    var i :| 0 <= i < stop && all[..stop][i] == MarkArtifact(n);
    assert MarkFollows(artifacts, all, i);
    var k :| 0 <= k < i && all[..i][k] == DeployImage(artifacts[n].image.value);
    assert all[..stop][k] == DeployImage(artifacts[n].image.value);
  }

  // ---- The groups ----

  ghost predicate Belongs(artifacts: map<Name, Rebuilt>, image: Image, n: Name) {
    n in artifacts && artifacts[n].image == Some(image)
  }

  /** The members of a group come in the order of the listing: two of them stand at two of its positions, in that order. */
  lemma {:induction false} MembersInOrder(artifacts: map<Name, Rebuilt>, listing: seq<Name>, image: Image, i: nat, j: nat)
    requires i < j < |Members(artifacts, listing, image)|
    ensures var members := Members(artifacts, listing, image);
            exists a, b :: 0 <= a < b < |listing| && listing[a] == members[i] && listing[b] == members[j]
  {
    var init, last := listing[..|listing| - 1], |listing| - 1;
    var members, rest := Members(artifacts, listing, image), Members(artifacts, init, image);
    if j < |rest| {
      MembersInOrder(artifacts, init, image, i, j);
      var a, b :| 0 <= a < b < |init| && init[a] == rest[i] && init[b] == rest[j];
      assert listing[a] == members[i] && listing[b] == members[j];
    } else {
      MembersMeaning(artifacts, init, image);
      assert rest[i] in init;
      var a :| 0 <= a < |init| && init[a] == rest[i];
      assert listing[a] == members[i] && listing[last] == members[j];
    }
  }

  /** Every listed artifact of the image is a member as often as it is listed, and no other is. */
  lemma {:induction false} MembersCount(artifacts: map<Name, Rebuilt>, listing: seq<Name>, image: Image, n: Name)
    ensures multiset(Members(artifacts, listing, image))[n] == if Belongs(artifacts, image, n) then multiset(listing)[n] else 0
  {
    if listing != [] {
      MembersCount(artifacts, listing[..|listing| - 1], image, n);
      assert listing == listing[..|listing| - 1] + [listing[|listing| - 1]];
    }
  }

  // ---- Which images are deployed ----

  /** The first member that is not marked is one whose version is absent or another number. */
  ghost predicate Outdated(artifacts: map<Name, Rebuilt>, members: seq<Name>, i: nat)
    requires i < |members| && forall n | n in members :: n in artifacts
  {
    && !Marked(artifacts[members[i]]) && !Unreadable(artifacts[members[i]])
    && forall k | 0 <= k < i :: Marked(artifacts[members[k]])
  }

  lemma {:induction false} DecideGoesIff(artifacts: map<Name, Rebuilt>, members: seq<Name>)
    requires forall n | n in members :: n in artifacts
    ensures Decide(artifacts, members) == Go <==> exists i :: 0 <= i < |members| && Outdated(artifacts, members, i)
  {
    if members != [] {
      var rest := members[1..];
      DecideGoesIff(artifacts, rest);
      if Decide(artifacts, members) == Go {
        if Marked(artifacts[members[0]]) {
          var i :| 0 <= i < |rest| && Outdated(artifacts, rest, i);
          assert Outdated(artifacts, members, i + 1);
        } else {
          assert Outdated(artifacts, members, 0);
        }
      }
      if i :| 0 <= i < |members| && Outdated(artifacts, members, i) {
        if Marked(artifacts[members[0]]) { assert Outdated(artifacts, rest, i - 1); }
      }
    }
  }

  /** The image is that of the k-th group, no group before it fails, and it is forced or outdated and can be extracted. */
  ghost predicate Reached(artifacts: map<Name, Rebuilt>, o: Options, image: Image, k: nat)
    requires k < |o.order|
  {
    MembersMeaning(artifacts, o.listing, image);
    var members := Members(artifacts, o.listing, image);
    && o.order[k] == image && o.available(image) == Present
    && (o.force || exists i :: 0 <= i < |members| && Outdated(artifacts, members, i))
    && forall i | 0 <= i < k :: !FailsAt(artifacts, o, i)
  }

  lemma ReachedIff(artifacts: map<Name, Rebuilt>, o: Options, k: nat)
    requires k < |o.order|
    ensures DeploysAt(artifacts, o, k) <==> Reached(artifacts, o, o.order[k], k)
  {
    MembersMeaning(artifacts, o.listing, o.order[k]);
    DecideGoesIff(artifacts, Members(artifacts, o.listing, o.order[k]));
    ThrowsIff(artifacts, o, k);
  }

  lemma GroupDeploys(artifacts: map<Name, Rebuilt>, o: Options, image: Image, other: Image)
    ensures DeployImage(other) in GroupPlan(artifacts, o, image).actions <==> Redone(artifacts, o, image) && other == image
  {
    var actions := GroupPlan(artifacts, o, image).actions;
    if Redone(artifacts, o, image) { assert actions[0] == DeployImage(image); }
  }

  lemma {:induction false} DeploysOfPlan(artifacts: map<Name, Rebuilt>, o: Options, j: nat, image: Image)
    requires j <= |o.order|
    ensures DeployImage(image) in PlanFirst(artifacts, o, j).actions <==>
              exists k :: 0 <= k < j && Reached(artifacts, o, image, k)
  {
    if j > 0 {
      DeploysOfPlan(artifacts, o, j - 1, image);
      GroupDeploys(artifacts, o, o.order[j - 1], image);
      ReachedIff(artifacts, o, j - 1);
      assert Reached(artifacts, o, image, j - 1) <==>
        !PlanFirst(artifacts, o, j - 1).threw && DeployImage(image) in GroupPlan(artifacts, o, o.order[j - 1]).actions;
    }
  }

  /**
   * A run that is not stopped, whether or not it throws, deploys an image exactly if it gets as far as the group of that
   * image, the group is forced or outdated, and the image can be extracted; then it marks all listed artifacts of the image.
   */
  lemma DeployedIff(w: World, o: Options, image: Image, n: Name)
    ensures image in Done(w, o).deployed <==> image in w.deployed || exists k :: 0 <= k < |o.order| && Reached(w.artifacts, o, image, k)
    ensures MarkArtifact(n) in PlanOf(w.artifacts, o).actions <==>
              && n in o.listing && n in w.artifacts && w.artifacts[n].image.Some?
              && exists k :: 0 <= k < |o.order| && Reached(w.artifacts, o, w.artifacts[n].image.value, k)
  {
    var a := w.artifacts;
    ApplyFacts(w, PlanOf(a, o).actions);
    DeploysOfPlan(a, o, |o.order|, image);
    MarksOfPlan(a, o, |o.order|, n);
    if k :| 0 <= k < |o.order| && MarksAt(a, o, k, n) {
      MarksAtImage(a, o, k, n);
      ReachedIff(a, o, k);
      assert Reached(a, o, a[n].image.value, k);
    }
    if n in o.listing && n in a && a[n].image.Some? {
      if k :| 0 <= k < |o.order| && Reached(a, o, a[n].image.value, k) {
        ReachedIff(a, o, k);
        MembersMeaning(a, o.listing, o.order[k]);
        assert MarksAt(a, o, k, n);
      }
    }
  }
}
