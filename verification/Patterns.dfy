/**
 The validating patterns of the scripts as regular expressions with their usual meaning, anchored at both ends, and that
 the predicates on characters and positions which the models use say the same.
 */
module Patterns {
  import opened Common
  import opened ImageTagPlan
  import opened SchemaManifest

  /** A class is given by its ranges of characters. */
  type Class = seq<(char, char)>

  datatype Pattern =
    | OneOf(chars: Class)
    | Exactly(text: string)
    | Then(first: Pattern, second: Pattern)
    | Times(part: Pattern, least: nat, most: nat)
    | AnyTimes(part: Pattern)

  predicate In(c: char, chars: Class) {
    exists k | 0 <= k < |chars| :: chars[k].0 <= c <= chars[k].1
  }

  function Size(p: Pattern): nat {
    match p
    case OneOf(_) => 0
    case Exactly(_) => 0
    case Then(first, second) => Size(first) + Size(second) + 1
    case Times(part, _, _) => Size(part) + 1
    case AnyTimes(part) => Size(part) + 1
  }

  ghost predicate Matches(p: Pattern, s: string)
    decreases 2 * Size(p), 0
  {
    match p
    case OneOf(chars) => |s| == 1 && In(s[0], chars)
    case Exactly(text) => s == text
    case Then(first, second) => exists i | 0 <= i <= |s| :: Matches(first, s[..i]) && Matches(second, s[i..])
    case Times(part, least, most) => MatchesTimes(part, least, most, s)
    case AnyTimes(part) => MatchesAny(part, s)
  }

  /** At least and at most so many matches, one behind the other. */
  ghost predicate MatchesTimes(part: Pattern, least: nat, most: nat, s: string)
    decreases 2 * Size(part) + 1, most
  {
    || (least == 0 && s == "")
    || (most > 0 && exists i | 0 <= i <= |s| ::
          Matches(part, s[..i]) && MatchesTimes(part, if least == 0 then 0 else least - 1, most - 1, s[i..]))
  }

  ghost predicate MatchesAny(part: Pattern, s: string)
    decreases 2 * Size(part) + 1, |s|
  {
    s == "" || exists i | 0 < i <= |s| :: Matches(part, s[..i]) && MatchesAny(part, s[i..])
  }

  // ----- Parts of known length, and repeated classes -----

  ghost predicate OfLength(p: Pattern, n: nat) {
    forall s | Matches(p, s) :: |s| == n
  }

  predicate AllIn(s: string, chars: Class) {
    forall c | c in s :: In(c, chars)
  }

  lemma ThenParts(first: Pattern, second: Pattern, s: string) returns (i: nat)
    requires Matches(Then(first, second), s)
    ensures i <= |s| && Matches(first, s[..i]) && Matches(second, s[i..])
  {
    i :| 0 <= i <= |s| && Matches(first, s[..i]) && Matches(second, s[i..]);
  }

  lemma ThenStep(first: Pattern, second: Pattern, s: string, i: nat)
    requires i <= |s| && Matches(first, s[..i]) && Matches(second, s[i..])
    ensures Matches(Then(first, second), s)
  {
  }

  lemma FirstOfLength(first: Pattern, second: Pattern, n: nat, s: string)
    requires OfLength(first, n)
    ensures Matches(Then(first, second), s) <==> n <= |s| && Matches(first, s[..n]) && Matches(second, s[n..])
  {
  }

  lemma {:induction false} TimesOfClass(chars: Class, least: nat, most: nat, s: string)
    requires least <= most
    ensures MatchesTimes(OneOf(chars), least, most, s) <==> least <= |s| <= most && AllIn(s, chars)
    decreases most
  {
    if s == "" {
      if least > 0 && most > 0 {
        TimesOfClass(chars, least - 1, most - 1, s[0..]);
      }
    } else {
      assert s == [s[0]] + s[1..];
      if most > 0 {
        TimesOfClass(chars, if least == 0 then 0 else least - 1, most - 1, s[1..]);
      }
      assert s[..1] == [s[0]];
      forall i | 0 <= i <= |s| && Matches(OneOf(chars), s[..i])
        ensures i == 1
      {
      }
    }
  }

  lemma {:induction false} AnyOfClass(chars: Class, s: string)
    ensures MatchesAny(OneOf(chars), s) <==> AllIn(s, chars)
    decreases |s|
  {
    if s != "" {
      assert s == [s[0]] + s[1..] && s[..1] == [s[0]];
      AnyOfClass(chars, s[1..]);
      forall i | 0 < i <= |s| && Matches(OneOf(chars), s[..i])
        ensures i == 1
      {
      }
    }
  }

  /** One character of a class and then so many of another. */
  lemma HeadAndClass(head: Class, chars: Class, least: nat, most: nat, s: string)
    requires least <= most
    ensures Matches(Then(OneOf(head), Times(OneOf(chars), least, most)), s) <==>
      1 + least <= |s| <= 1 + most && In(s[0], head) && AllIn(s[1..], chars)
  {
    assert OfLength(OneOf(head), 1);
    FirstOfLength(OneOf(head), Times(OneOf(chars), least, most), 1, s);
    if s != "" {
      TimesOfClass(chars, least, most, s[1..]);
      assert s[..1] == [s[0]];
    }
  }

  // ----- Names and tags -----

  const LOWER: Class := [('a', 'z'), ('0', '9')]
  const LETTERS: Class := [('a', 'z'), ('A', 'Z'), ('0', '9')]
  const NAMES: Class := [('a', 'z'), ('A', 'Z'), ('0', '9'), ('_', '_'), ('.', '.'), ('-', '-')]
  const SEPARATORS: Class := [('.', '.'), ('_', '_'), ('-', '-')]
  const HEX_DIGITS: Class := [('a', 'f'), ('0', '9')]
  const DIGITS: Class := [('0', '9')]

  lemma Classes(c: char)
    ensures In(c, LOWER) <==> 'a' <= c <= 'z' || '0' <= c <= '9'
    ensures In(c, LETTERS) <==> In(c, LOWER) || 'A' <= c <= 'Z'
    ensures In(c, SEPARATORS) <==> c == '.' || c == '_' || c == '-'
    ensures In(c, NAMES) <==> In(c, LETTERS) || In(c, SEPARATORS)
    ensures In(c, HEX_DIGITS) <==> 'a' <= c <= 'f' || '0' <= c <= '9'
    ensures In(c, DIGITS) <==> '0' <= c <= '9'
  {
    assert LOWER[0] == ('a', 'z') && LOWER[1] == ('0', '9');
    assert LETTERS[0] == ('a', 'z') && LETTERS[1] == ('A', 'Z') && LETTERS[2] == ('0', '9');
    assert SEPARATORS[0] == ('.', '.') && SEPARATORS[1] == ('_', '_') && SEPARATORS[2] == ('-', '-');
    assert NAMES[0] == ('a', 'z') && NAMES[1] == ('A', 'Z') && NAMES[2] == ('0', '9');
    assert NAMES[3] == ('_', '_') && NAMES[4] == ('.', '.') && NAMES[5] == ('-', '-');
    assert HEX_DIGITS[0] == ('a', 'f') && HEX_DIGITS[1] == ('0', '9') && DIGITS[0] == ('0', '9');
  }

  lemma AllOfHead(s: string, chars: Class, p: char -> bool)
    requires s != "" && forall c :: In(c, chars) <==> p(c)
    ensures (forall c | c in s :: p(c)) <==> In(s[0], chars) && AllIn(s[1..], chars)
  {
    assert s == [s[0]] + s[1..];
  }

  lemma NameCharacters()
    ensures forall c :: In(c, NAMES) <==> Alphanumeric(c) || Separator(c)
    ensures forall c :: In(c, LETTERS) <==> Alphanumeric(c)
    ensures forall c :: In(c, LOWER) <==> Lower(c)
    ensures forall c :: In(c, SEPARATORS) <==> Separator(c)
    ensures forall c :: In(c, LETTERS) ==> In(c, NAMES)
    ensures forall c :: In(c, HEX_DIGITS) <==> 'a' <= c <= 'f' || '0' <= c <= '9'
    ensures forall c :: In(c, DIGITS) <==> '0' <= c <= '9'
  {
    forall c: char
      ensures In(c, NAMES) <==> Alphanumeric(c) || Separator(c)
      ensures In(c, LETTERS) <==> Alphanumeric(c)
      ensures In(c, LOWER) <==> Lower(c)
      ensures In(c, SEPARATORS) <==> Separator(c)
      ensures In(c, HEX_DIGITS) <==> 'a' <= c <= 'f' || '0' <= c <= '9'
      ensures In(c, DIGITS) <==> '0' <= c <= '9'
    {
      Classes(c);
    }
  }

  /** Owner and name of a repository: `[a-zA-Z0-9][a-zA-Z0-9_.-]{0,99}`. */
  lemma SegmentExact(s: string)
    ensures Segment(s, 100) <==> Matches(Then(OneOf(LETTERS), Times(OneOf(NAMES), 0, 99)), s)
  {
    HeadAndClass(LETTERS, NAMES, 0, 99, s);
    NameCharacters();
    hide Matches, In, Alphanumeric, Separator;
    if s != "" {
      AllOfHead(s, NAMES, c => Alphanumeric(c) || Separator(c));
    }
  }

  /** A release tag: `[a-zA-Z0-9][a-zA-Z0-9._-]{0,127}`, without two dots in a row. */
  lemma ReleaseTagExact(s: string)
    ensures ReleaseTag(s) <==> Matches(Then(OneOf(LETTERS), Times(OneOf(NAMES), 0, 127)), s) && !Contains(s, "..")
  {
    HeadAndClass(LETTERS, NAMES, 0, 127, s);
    NameCharacters();
    hide Matches, In, Alphanumeric, Separator, Contains;
    if s != "" {
      AllOfHead(s, NAMES, c => Alphanumeric(c) || Separator(c));
    }
  }

  lemma TwoDots(s: string)
    ensures Contains(s, "..") <==> exists i | 0 <= i < |s| - 1 :: s[i] == '.' && s[i + 1] == '.'
  {
    if i :| 0 <= i < |s| - 1 && s[i] == '.' && s[i + 1] == '.' {
      assert s[i..][..2] == "..";
    }
    if i :| 0 <= i <= |s| && ".." <= s[i..] {
      assert s[i..][0] == '.' && s[i..][1] == '.';
    }
  }

  /** An image tag: `[a-zA-Z0-9_][a-zA-Z0-9_.-]{0,127}`. */
  lemma ImageTagExact(s: string)
    ensures ImageTag(s) <==> Matches(Then(OneOf(LETTERS + [('_', '_')]), Times(OneOf(NAMES), 0, 127)), s)
  {
    var head := LETTERS + [('_', '_')];
    HeadAndClass(head, NAMES, 0, 127, s);
    NameCharacters();
    assert forall c :: In(c, head) <==> In(c, LETTERS) || c == '_' by {
      WithUnderscore(LETTERS);
    }
    hide Matches, In, Alphanumeric, Separator;
    if s != "" {
      AllOfHead(s, NAMES, c => Alphanumeric(c) || Separator(c));
      assert Separator('_') by {
        Underscore();
      }
    }
  }

  lemma Underscore()
    ensures Separator('_')
  {
  }

  lemma WithUnderscore(chars: Class)
    ensures forall c :: In(c, chars + [('_', '_')]) <==> In(c, chars) || c == '_'
  {
    var more := chars + [('_', '_')];
    forall c: char
      ensures In(c, more) <==> In(c, chars) || c == '_'
    {
      if k :| 0 <= k < |chars| && chars[k].0 <= c <= chars[k].1 {
        assert more[k].0 <= c <= more[k].1;
      }
      assert more[|chars|] == ('_', '_');
    }
  }

  /** A Docker Hub namespace: `[a-z0-9][a-z0-9_-]{0,99}`, and not the host of a registry on this machine. */
  lemma NamespaceExact(s: string)
    ensures NamespaceName(s) <==>
      s != "localhost" && Matches(Then(OneOf(LOWER), Times(OneOf(LOWER + [('_', '_'), ('-', '-')]), 0, 99)), s)
  {
    var chars := LOWER + [('_', '_'), ('-', '-')];
    HeadAndClass(LOWER, chars, 0, 99, s);
    NameCharacters();
    assert forall c :: In(c, chars) <==> Lower(c) || c == '_' || c == '-' by {
      assert chars == LOWER + [('_', '_')] + [('-', '-')];
      WithUnderscore(LOWER);
      WithDash(LOWER + [('_', '_')]);
    }
    hide Matches, In, Lower;
    if s != "" {
      AllOfHead(s, chars, c => Lower(c) || c == '_' || c == '-');
    }
  }

  lemma WithDash(chars: Class)
    ensures forall c :: In(c, chars + [('-', '-')]) <==> In(c, chars) || c == '-'
  {
    var more := chars + [('-', '-')];
    forall c: char
      ensures In(c, more) <==> In(c, chars) || c == '-'
    {
      if k :| 0 <= k < |chars| && chars[k].0 <= c <= chars[k].1 {
        assert more[k].0 <= c <= more[k].1;
      }
      assert more[|chars|] == ('-', '-');
    }
  }

  const WORD := Then(OneOf(LOWER), AnyTimes(OneOf(LOWER)))
  const GROUP := Then(OneOf(SEPARATORS), WORD)
  const REPOSITORY := Then(WORD, AnyTimes(GROUP))

  predicate AllLower(s: string) {
    forall c | c in s :: Lower(c)
  }

  lemma WordExact(s: string)
    ensures Matches(WORD, s) <==> s != "" && AllLower(s)
  {
    assert OfLength(OneOf(LOWER), 1);
    FirstOfLength(OneOf(LOWER), AnyTimes(OneOf(LOWER)), 1, s);
    NameCharacters();
    if s != "" {
      AnyOfClass(LOWER, s[1..]);
      assert s == [s[0]] + s[1..] && s[..1] == [s[0]];
    }
  }

  lemma GroupExact(t: string)
    ensures Matches(GROUP, t) <==> t != "" && Separator(t[0]) && Matches(WORD, t[1..])
  {
    assert OfLength(OneOf(SEPARATORS), 1);
    FirstOfLength(OneOf(SEPARATORS), WORD, 1, t);
    NameCharacters();
    assert t != "" ==> t[..1] == [t[0]];
  }

  // A separator and a word, and more of these: behind the separator it is a repository name again.
  lemma GroupsExact(t: string)
    ensures MatchesAny(GROUP, t) <==> t == "" || (Separator(t[0]) && Matches(REPOSITORY, t[1..]))
  {
    hide *;
    AnyNothing(GROUP);
    if t != "" && MatchesAny(GROUP, t) {
      var i := AnyParts(GROUP, t);
      GroupForward(t, i);
    }
    if t != "" && Separator(t[0]) && Matches(REPOSITORY, t[1..]) {
      GroupBackward(t);
    }
  }

  lemma GroupForward(t: string, i: nat)
    requires 0 < i <= |t| && Matches(GROUP, t[..i]) && MatchesAny(GROUP, t[i..])
    ensures Separator(t[0]) && Matches(REPOSITORY, t[1..])
  {
    hide *;
    CutBehindFirst(t, i);
    GroupExact(t[..i]);
    InParts(t[1..], i - 1);
  }

  lemma CutBehindFirst(t: string, i: nat)
    requires 0 < i <= |t|
    ensures t[..i] != "" && t[..i][0] == t[0]
    ensures t[..i][1..] == t[1..][..i - 1] && t[i..] == t[1..][i - 1..]
  {
  }

  lemma GroupBackward(t: string)
    requires t != "" && Separator(t[0]) && Matches(REPOSITORY, t[1..])
    ensures MatchesAny(GROUP, t)
  {
    hide *;
    var j := Parts(t[1..]);
    CutBehindFirst(t, j + 1);
    GroupExact(t[..j + 1]);
    AnyStep(GROUP, t, j + 1);
  }

  lemma AnyNothing(part: Pattern)
    ensures MatchesAny(part, "")
  {
  }

  lemma AnyStep(part: Pattern, t: string, i: nat)
    requires 0 < i <= |t| && Matches(part, t[..i]) && MatchesAny(part, t[i..])
    ensures MatchesAny(part, t)
  {
  }

  lemma AnyParts(part: Pattern, t: string) returns (i: nat)
    requires t != "" && MatchesAny(part, t)
    ensures 0 < i <= |t| && Matches(part, t[..i]) && MatchesAny(part, t[i..])
  {
    i :| 0 < i <= |t| && Matches(part, t[..i]) && MatchesAny(part, t[i..]);
  }

  /** The repository part of a Docker Hub name: `[a-z0-9]+(?:[._-][a-z0-9]+)*`. */
  lemma {:induction false} RepositoryExact(s: string)
    ensures RepositoryName(s) <==> Matches(REPOSITORY, s)
    decreases |s|
  {
    hide Matches, Separator, Lower;
    if RepositoryName(s) {
      var i := FirstSeparator(s);
      WordExact(s[..i]);
      GroupsExact(s[i..]);
      if i < |s| {
        assert s[i..][1..] == s[i + 1..];
        RepositoryExact(s[i + 1..]);
      }
      InParts(s, i);
    }
    if Matches(REPOSITORY, s) {
      var i := Parts(s);
      WordExact(s[..i]);
      GroupsExact(s[i..]);
      if i < |s| {
        assert s[i..][1..] == s[i + 1..];
        RepositoryExact(s[i + 1..]);
      }
      Joined(s, i);
    }
  }

  lemma FirstSeparator(s: string) returns (i: nat)
    requires RepositoryName(s)
    ensures 0 < i <= |s| && AllLower(s[..i])
    ensures i < |s| ==> Separator(s[i]) && RepositoryName(s[i + 1..])
  {
    i := 1;
    while i < |s| && Lower(s[i])
      invariant 0 < i <= |s| && AllLower(s[..i])
      decreases |s| - i
    {
      assert s[..i + 1] == s[..i] + [s[i]];
      i := i + 1;
    }
    if i < |s| {
      assert i < |s| - 1;
      var t := s[i + 1..];
      assert forall k | 0 <= k < |t| :: t[k] == s[i + 1 + k];
    }
  }

  lemma InParts(s: string, i: nat)
    requires i <= |s| && Matches(WORD, s[..i]) && MatchesAny(GROUP, s[i..])
    ensures Matches(REPOSITORY, s)
  {
    assert Matches(AnyTimes(GROUP), s[i..]);
  }

  lemma Parts(s: string) returns (i: nat)
    requires Matches(REPOSITORY, s)
    ensures i <= |s| && Matches(WORD, s[..i]) && MatchesAny(GROUP, s[i..])
  {
    i :| 0 <= i <= |s| && Matches(WORD, s[..i]) && Matches(AnyTimes(GROUP), s[i..]);
  }

  lemma Joined(s: string, i: nat)
    requires 0 < i <= |s| && AllLower(s[..i])
    requires i < |s| ==> Separator(s[i]) && RepositoryName(s[i + 1..])
    ensures RepositoryName(s)
  {
    assert forall k | 0 <= k < i :: s[k] == s[..i][k] && s[k] in s[..i];
    forall k | 0 <= k < |s| - 1
      ensures (Lower(s[k]) || Separator(s[k])) && (Separator(s[k]) ==> Lower(s[k + 1]))
    {
      if k > i {
        assert s[k] == s[i + 1..][k - i - 1];
        assert k < |s| - 1 ==> s[k + 1] == s[i + 1..][k - i];
      }
    }
    if i < |s| {
      assert s[|s| - 1] == s[i + 1..][|s[i + 1..]| - 1];
    }
  }

  // ----- Digests and identifiers -----

  /** So many hexadecimal digits: `[a-f0-9]{n}`. */
  lemma HexExact(s: string, n: nat)
    ensures Hex(s, n) <==> Matches(Times(OneOf(HEX_DIGITS), n, n), s)
  {
    TimesOfClass(HEX_DIGITS, n, n, s);
    NameCharacters();
  }

  /** A digest: `sha256:[a-f0-9]{64}`. */
  lemma DigestExact(s: string)
    ensures ImageTagPlan.Digest(s) <==> Matches(Then(Exactly("sha256:"), Times(OneOf(HEX_DIGITS), 64, 64)), s)
  {
    assert OfLength(Exactly("sha256:"), 7);
    FirstOfLength(Exactly("sha256:"), Times(OneOf(HEX_DIGITS), 64, 64), 7, s);
    if |s| >= 7 {
      HexExact(s[7..], 64);
    }
  }

  const SEGMENT := Then(OneOf(LETTERS), Times(OneOf(NAMES), 0, 99))
  const TAG := Then(OneOf(LETTERS), Times(OneOf(NAMES), 0, 127))
  const IMAGE_TAG := Then(OneOf(LETTERS + [('_', '_')]), Times(OneOf(NAMES), 0, 127))
  const NAMESPACE := Then(OneOf(LOWER), Times(OneOf(LOWER + [('_', '_'), ('-', '-')]), 0, 99))
  const DIGEST := Then(Exactly("sha256:"), Times(OneOf(HEX_DIGITS), 64, 64))
  const COMMIT := Times(OneOf(HEX_DIGITS), 40, 40)

  /** The tag follows its pattern, and so do the image tags made of it. */
  ghost predicate TagFollows(tag: string) {
    && Matches(TAG, tag) && !Contains(tag, "..") && Matches(IMAGE_TAG, tag)
    && (tag != "" && tag[0] == 'v' ==> Matches(IMAGE_TAG, tag[1..]))
  }

  ghost predicate DockerHubFollows(n: DockerHubName) {
    && Matches(NAMESPACE, n.ns) && n.ns != "localhost" && Matches(REPOSITORY, n.repository)
    && |n.ns| + 1 + |n.repository| <= 201
  }

  /** A promotion is planned exactly for inputs that follow the patterns and an image reference of that repository. */
  lemma PlanAcceptedExact(o: Options, owner: string, name: string)
    requires LowerCased(o.owner, owner) && LowerCased(o.name, name)
    ensures CreateReleaseImagePromotionPlan(o).Ok? <==>
      && Matches(SEGMENT, o.owner) && Matches(SEGMENT, o.name) && Matches(COMMIT, o.revision)
      && TagFollows(o.releaseTag)
      && (o.dockerHub.Some? ==> DockerHubFollows(o.dockerHub.value))
      && o.imageRef.imageName == "ghcr.io/" + owner + "/" + name && Matches(DIGEST, o.imageRef.digest)
  {
    SegmentExact(o.owner);
    SegmentExact(o.name);
    HexExact(o.revision, 40);
    LowerCaseExact(o.owner, owner);
    LowerCaseExact(o.name, name);
    DigestExact(o.imageRef.digest);
    TagAccepted(o.releaseTag);
    if o.dockerHub.Some? {
      DockerHubExact(o.dockerHub.value);
    }
    hide Matches, Contains, Hex, TagFollows, DockerHubFollows, DockerHubNameValid, Segment, ReleaseTag, ImageTag;
    hide Aliases, ToLower, ImageTagPlan.Digest, LowerCased;
  }

  lemma DockerHubExact(n: DockerHubName)
    ensures DockerHubNameValid(n) <==> DockerHubFollows(n)
  {
    NamespaceExact(n.ns);
    RepositoryExact(n.repository);
    hide Matches, NamespaceName, RepositoryName;
  }

  lemma TagAccepted(tag: string)
    ensures ReleaseTag(tag) && (forall alias | alias in Aliases(tag) :: ImageTag(alias)) <==> TagFollows(tag)
  {
    ReleaseTagExact(tag);
    ImageTagExact(tag);
    var unprefixed := if tag != "" && tag[0] == 'v' then tag[1..] else tag;
    ImageTagExact(unprefixed);
    LatestIsTag();
    hide Matches, Contains, ReleaseTag, ImageTag, Aliases;
    forall alias
      ensures alias in Aliases(tag) <==> alias == tag || alias == unprefixed || ('-' !in tag && alias == "latest")
    {
      AliasExact(tag, alias);
    }
  }

  lemma LatestIsTag()
    ensures ImageTag("latest")
  {
  }

  // ----- Fixed forms -----

  /** The pattern of a fixed form: a zero stands for any character of the class, everything else for itself. */
  function Form(form: string, chars: Class): Pattern {
    if form == "" then Exactly("")
    else Then(if form[0] == '0' then OneOf(chars) else Exactly([form[0]]), Form(form[1..], chars))
  }

  predicate Formed(s: string, form: string, chars: Class) {
    |s| == |form| && forall i | 0 <= i < |s| :: if form[i] == '0' then In(s[i], chars) else s[i] == form[i]
  }

  lemma {:induction false} FormExact(form: string, chars: Class, s: string)
    ensures Matches(Form(form, chars), s) <==> Formed(s, form, chars)
  {
    if form != "" {
      var first := if form[0] == '0' then OneOf(chars) else Exactly([form[0]]);
      assert OfLength(first, 1);
      FirstOfLength(first, Form(form[1..], chars), 1, s);
      if s != "" {
        FormExact(form[1..], chars, s[1..]);
        assert s[..1] == [s[0]];
        FormedParts(s, form, chars, 1);
        assert s[..1][0] == s[0] && form[..1][0] == form[0];
      }
    }
  }

  lemma FormedParts(s: string, form: string, chars: Class, n: nat)
    requires n <= |form| && n <= |s|
    ensures Formed(s, form, chars) <==> Formed(s[..n], form[..n], chars) && Formed(s[n..], form[n..], chars)
  {
    hide In;
    if Formed(s[..n], form[..n], chars) && Formed(s[n..], form[n..], chars) {
      forall i | 0 <= i < |s|
        ensures if form[i] == '0' then In(s[i], chars) else s[i] == form[i]
      {
        if i < n {
          assert s[i] == s[..n][i] && form[i] == form[..n][i];
        } else {
          assert s[i] == s[n..][i - n] && form[i] == form[n..][i - n];
        }
      }
    }
  }

  lemma FormOfLength(form: string, chars: Class)
    ensures OfLength(Form(form, chars), |form|)
  {
    forall s | Matches(Form(form, chars), s)
      ensures |s| == |form|
    {
      FormExact(form, chars, s);
    }
  }

  lemma ShapedIsFormed(s: string, form: string)
    ensures Shaped(s, form) <==> Formed(s, form, DIGITS)
  {
    NameCharacters();
    hide In;
  }

  lemma LastExactly(first: Pattern, text: string, s: string)
    ensures Matches(Then(first, Exactly(text)), s) <==>
      |text| <= |s| && s[|s| - |text|..] == text && Matches(first, s[..|s| - |text|])
  {
    hide Matches;
    if Matches(Then(first, Exactly(text)), s) {
      var i := ThenParts(first, Exactly(text), s);
      ExactlyIs(text, s[i..]);
    }
    if |text| <= |s| && s[|s| - |text|..] == text && Matches(first, s[..|s| - |text|]) {
      ExactlyIs(text, s[|s| - |text|..]);
      ThenStep(first, Exactly(text), s, |s| - |text|);
    }
  }

  lemma ExactlyIs(text: string, s: string)
    ensures Matches(Exactly(text), s) <==> s == text
  {
  }

  /** An ISO time in UTC: `\d{4}-\d{2}-\d{2}T\d{2}:\d{2}:\d{2}(?:\.\d{3})?Z`. */
  lemma IsoExact(s: string)
    ensures IsoForm(s) <==>
      Matches(Then(Form("0000-00-00T00:00:00", DIGITS), Then(Times(Form(".000", DIGITS), 0, 1), Exactly("Z"))), s)
  {
    hide *;
    var date, rest := "0000-00-00T00:00:00", Then(Times(Form(".000", DIGITS), 0, 1), Exactly("Z"));
    assert |date| == 19;
    FormOfLength(date, DIGITS);
    FirstOfLength(Form(date, DIGITS), rest, 19, s);
    if |s| >= 19 {
      FormExact(date, DIGITS, s[..19]);
      FractionExact(s[19..]);
      IsoParts(s);
    } else {
      ShortIso(s);
    }
  }

  lemma ShortIso(s: string)
    requires |s| < 19
    ensures !IsoForm(s)
  {
    assert |ISO_SECONDS| == 20 && |ISO_MILLISECONDS| == 24;
  }

  lemma FractionExact(t: string)
    ensures Matches(Then(Times(Form(".000", DIGITS), 0, 1), Exactly("Z")), t) <==>
      t == "Z" || (|t| == 5 && Formed(t[..4], ".000", DIGITS) && t[4..] == "Z")
  {
    hide Matches, OfLength, Form, Formed;
    LastExactly(Times(Form(".000", DIGITS), 0, 1), "Z", t);
    if |t| >= 1 {
      var u := t[..|t| - 1];
      FormOfLength(".000", DIGITS);
      if |u| >= 4 {
        FormExact(".000", DIGITS, u[..4]);
      }
      AtMostOnce(Form(".000", DIGITS), 4, u);
      assert |t| == 1 ==> t[0..] == t;
      assert |t| == 5 ==> u[..4] == t[..4];
    }
  }

  lemma AtMostOnce(part: Pattern, n: nat, s: string)
    requires OfLength(part, n) && n > 0
    ensures Matches(Times(part, 0, 1), s) <==> s == "" || (|s| == n && Matches(part, s[..n]))
  {
    if s != "" && MatchesTimes(part, 0, 1, s) {
      var i :| 0 <= i <= |s| && Matches(part, s[..i]) && MatchesTimes(part, 0, 0, s[i..]);
      assert i == |s| == n;
    }
    if |s| == n && Matches(part, s[..n]) {
      assert s[n..] == "" && MatchesTimes(part, 0, 0, s[n..]);
    }
  }

  lemma IsoParts(s: string)
    requires |s| >= 19
    ensures IsoForm(s) <==>
      && Formed(s[..19], "0000-00-00T00:00:00", DIGITS)
      && (s[19..] == "Z" || (|s| == 24 && Formed(s[19..][..4], ".000", DIGITS) && s[19..][4..] == "Z"))
  {
    ShapedIsFormed(s, ISO_SECONDS);
    ShapedIsFormed(s, ISO_MILLISECONDS);
    FormedParts(s, ISO_SECONDS, DIGITS, 19);
    FormedParts(s, ISO_MILLISECONDS, DIGITS, 19);
    IsoConstants();
    FormedZ(s[19..]);
    if |s| >= 23 {
      FormedParts(s[19..], ".000Z", DIGITS, 4);
      FormedZ(s[19..][4..]);
    }
    hide Formed;
  }

  lemma IsoConstants()
    ensures ISO_SECONDS[..19] == "0000-00-00T00:00:00" && ISO_SECONDS[19..] == "Z"
    ensures ISO_MILLISECONDS[..19] == "0000-00-00T00:00:00" && ISO_MILLISECONDS[19..] == ".000Z"
    ensures ".000Z"[..4] == ".000" && ".000Z"[4..] == "Z"
  {
  }

  lemma FormedZ(t: string)
    ensures Formed(t, "Z", DIGITS) <==> t == "Z"
    ensures Formed(t, ".000Z", DIGITS) ==> |t| == 5
  {
  }

  const UNDERSCORED: Class := LOWER + [('_', '_')]
  const STAMP := Form("00000000_000000_", DIGITS)
  const TITLE := Then(Then(OneOf(UNDERSCORED), AnyTimes(OneOf(UNDERSCORED))), Exactly(".sql"))

  lemma WordCharacters()
    ensures forall c :: In(c, UNDERSCORED) <==> WordChar(c)
  {
    WithUnderscore(LOWER);
    NameCharacters();
    hide In;
  }

  lemma SomeOfClass(chars: Class, s: string)
    ensures Matches(Then(OneOf(chars), AnyTimes(OneOf(chars))), s) <==> s != "" && AllIn(s, chars)
  {
    assert OfLength(OneOf(chars), 1);
    FirstOfLength(OneOf(chars), AnyTimes(OneOf(chars)), 1, s);
    if s != "" {
      AnyOfClass(chars, s[1..]);
      assert s == [s[0]] + s[1..] && s[..1] == [s[0]];
    }
  }

  /** The name of a migration: `\d{8}_\d{6}_[a-z0-9_]+\.sql`. */
  lemma MigrationExact(s: string)
    ensures MigrationName(s) <==> Matches(Then(STAMP, TITLE), s)
  {
    hide *;
    StampOfLength();
    FirstOfLength(STAMP, TITLE, 16, s);
    if |s| >= 16 {
      StampExact(s[..16]);
      MigrationStamp(s);
      MigrationRest(s[16..]);
    }
    MigrationParts(s);
  }

  // ----- The table of an index definition -----

  const TABLE_NAME: Class := [('a', 'z'), ('_', '_')]
  const TABLE := Then(Exactly(" ON public."), Then(OneOf(TABLE_NAME), AnyTimes(OneOf(TABLE_NAME))))

  lemma TableCharacters()
    ensures forall c :: In(c, TABLE_NAME) <==> NameChar(c)
  {
    assert TABLE_NAME[0] == ('a', 'z') && TABLE_NAME[1] == ('_', '_');
  }

  lemma TableMatch(s: string)
    ensures Matches(TABLE, s) <==>
      |s| > |ON_PUBLIC| && s[..|ON_PUBLIC|] == ON_PUBLIC && forall c | c in s[|ON_PUBLIC|..] :: NameChar(c)
  {
    var some, n := Then(OneOf(TABLE_NAME), AnyTimes(OneOf(TABLE_NAME))), |ON_PUBLIC|;
    assert TABLE == Then(Exactly(ON_PUBLIC), some);
    hide ON_PUBLIC, TABLE;
    ExactLength(ON_PUBLIC);
    FirstOfLength(Exactly(ON_PUBLIC), some, n, s);
    if n <= |s| {
      ExactlyIs(ON_PUBLIC, s[..n]);
      SomeOfClass(TABLE_NAME, s[n..]);
      TableCharacters();
    }
    hide Matches, In;
  }

  lemma ExactLength(text: string)
    ensures OfLength(Exactly(text), |text|)
  {
  }

  ghost predicate TableMatchAt(definition: string, k: nat, j: nat) {
    k <= j <= |definition| && Matches(TABLE, definition[k..j])
  }

  lemma MatchAtPlace(definition: string, k: nat, j: nat)
    ensures TableMatchAt(definition, k, j) <==>
      && TableAt(definition, k) && k + |ON_PUBLIC| < j <= |definition|
      && forall i | k + |ON_PUBLIC| <= i < j :: NameChar(definition[i])
  {
    hide ON_PUBLIC, TABLE, Matches, NameChar;
    if k <= j <= |definition| {
      var n, s := |ON_PUBLIC|, definition[k..j];
      TableMatch(s);
      if k + n < j {
        assert s[..n] == definition[k..k + n] && s[n..] == definition[k + n..j];
        assert forall i | k + n <= i < j :: definition[i] == s[n..][i - k - n];
      }
    }
  }

  /** The first longest match of ` ON public.([a-z_]+)`, from k to j, gives the table; without a match there is none. */
  lemma TablePatternExact(definition: string) returns (k: nat, j: nat)
    ensures TableOf(definition).None? <==> forall k: nat, j: nat :: !TableMatchAt(definition, k, j)
    ensures TableOf(definition).Some? ==>
      && TableMatchAt(definition, k, j) && TableOf(definition).value == definition[k + |ON_PUBLIC|..j]
      && forall k': nat, j': nat | TableMatchAt(definition, k', j') :: k <= k' && (k' == k ==> j' <= j)
  {
    hide TableMatchAt, TableOf, TableAt, NameChar, ON_PUBLIC;
    k := TableExact(definition);
    j := 0;
    forall k': nat, j': nat
      ensures TableMatchAt(definition, k', j') ==> TableAt(definition, k')
    {
      MatchAtPlace(definition, k', j');
    }
    if TableOf(definition).Some? {
      var n, name := |ON_PUBLIC|, TableOf(definition).value;
      j := k + n + |name|;
      assert forall i | k + n <= i < j :: definition[i] == name[i - k - n];
      MatchAtPlace(definition, k, j);
      forall k': nat, j': nat | TableMatchAt(definition, k', j')
        ensures k <= k' && (k' == k ==> j' <= j)
      {
        MatchAtPlace(definition, k', j');
      }
      TableBegins(definition, k);
    }
  }

  lemma TableBegins(definition: string, k: nat)
    requires TableAt(definition, k)
    ensures k + |ON_PUBLIC| < |definition| && NameChar(definition[k + |ON_PUBLIC|])
  {
  }

  lemma StampExact(t: string)
    ensures Matches(STAMP, t) <==> Formed(t, "00000000_000000_", DIGITS)
  {
    FormExact("00000000_000000_", DIGITS, t);
  }

  lemma StampOfLength()
    ensures OfLength(STAMP, 16)
  {
    FormOfLength("00000000_000000_", DIGITS);
    assert |"00000000_000000_"| == 16;
  }

  lemma MigrationRest(t: string)
    ensures Matches(TITLE, t) <==>
      |t| >= 5 && t[|t| - 4..] == ".sql" && forall c | c in t[..|t| - 4] :: WordChar(c)
  {
    var some := Then(OneOf(UNDERSCORED), AnyTimes(OneOf(UNDERSCORED)));
    LastExactly(some, ".sql", t);
    if |t| >= 4 {
      SomeOfClass(UNDERSCORED, t[..|t| - 4]);
      WordCharacters();
    }
    hide Matches, In;
  }

  lemma MigrationParts(s: string)
    ensures MigrationName(s) <==>
      && |s| >= 16 && Digits(s[..8]) && s[8] == '_' && Digits(s[9..15]) && s[15] == '_'
      && var t := s[16..]; |t| >= 5 && t[|t| - 4..] == ".sql" && forall c | c in t[..|t| - 4] :: WordChar(c)
  {
    if |s| >= 21 {
      assert s[16..][..|s[16..]| - 4] == s[16..|s| - 4] && s[16..][|s[16..]| - 4..] == s[|s| - 4..];
    }
  }

  lemma MigrationStamp(s: string)
    requires |s| >= 16
    ensures Formed(s[..16], "00000000_000000_", DIGITS) <==>
      Digits(s[..8]) && s[8] == '_' && Digits(s[9..15]) && s[15] == '_'
  {
    NameCharacters();
    var t := s[..16];
    FormedParts(t, "00000000_000000_", DIGITS, 8);
    FormedParts(t[8..], "_000000_", DIGITS, 1);
    FormedParts(t[8..][1..], "000000_", DIGITS, 6);
    assert "00000000_000000_"[..8] == "00000000" && "00000000_000000_"[8..] == "_000000_";
    assert "_000000_"[..1] == "_" && "_000000_"[1..] == "000000_";
    assert "000000_"[..6] == "000000" && "000000_"[6..] == "_";
    assert t[..8] == s[..8] && t[8..][..1] == [s[8]] && t[8..][1..][..6] == s[9..15] && t[8..][1..][6..] == [s[15]];
    AllDigits(s[..8], "00000000");
    AllDigits(s[9..15], "000000");
    LoneCharacter(s[8]);
    LoneCharacter(s[15]);
    hide *;
  }

  lemma AllDigits(t: string, form: string)
    requires |t| == |form| && forall i | 0 <= i < |form| :: form[i] == '0'
    ensures Formed(t, form, DIGITS) <==> Digits(t)
  {
    NameCharacters();
    hide In;
    forall i | 0 <= i < |t|
      ensures t[i] in t && form[i] == '0'
    {
    }
    if Formed(t, form, DIGITS) {
      forall c | c in t
        ensures '0' <= c <= '9'
      {
        var i :| 0 <= i < |t| && t[i] == c;
      }
    }
  }

  lemma LoneCharacter(c: char)
    ensures Formed([c], "_", DIGITS) <==> c == '_'
  {
    var form := "_";
    assert form[0] == '_' && [c][0] == c;
  }

  const HEX_LETTERS: Class := [('a', 'f'), ('A', 'F'), ('0', '9')]
  const DASHED := Then(Exactly("-"), Times(OneOf(HEX_LETTERS), 4, 4))
  const EIGHT := Times(OneOf(HEX_LETTERS), 8, 8)
  const THREE_DASHED := Times(DASHED, 3, 3)
  const DASH_TWELVE := Then(Exactly("-"), Times(OneOf(HEX_LETTERS), 12, 12))

  lemma HexLetters()
    ensures forall c :: In(c, HEX_LETTERS) <==> HexLetter(c)
  {
    forall c: char
      ensures In(c, HEX_LETTERS) <==> HexLetter(c)
    {
      assert HEX_LETTERS[0] == ('a', 'f') && HEX_LETTERS[1] == ('A', 'F') && HEX_LETTERS[2] == ('0', '9');
    }
  }

  // So many characters of a class are a form of nothing but zeros.
  lemma ZerosExact(chars: Class, form: string, s: string)
    requires forall i | 0 <= i < |form| :: form[i] == '0'
    ensures Matches(Times(OneOf(chars), |form|, |form|), s) <==> Formed(s, form, chars)
  {
    TimesOfClass(chars, |form|, |form|, s);
    assert forall c | c in s :: exists i | 0 <= i < |s| :: s[i] == c;
  }

  lemma DashedExact(s: string)
    ensures Matches(DASHED, s) <==> Formed(s, "-0000", HEX_LETTERS)
  {
    hide Matches, Formed, In;
    assert OfLength(Exactly("-"), 1) by {
      DashOfLength();
    }
    FirstOfLength(Exactly("-"), Times(OneOf(HEX_LETTERS), 4, 4), 1, s);
    assert |"0000"| == 4 && "-0000"[..1] == "-" && "-0000"[1..] == "0000";
    if |s| >= 1 {
      FormedParts(s, "-0000", HEX_LETTERS, 1);
      ZerosExact(HEX_LETTERS, "0000", s[1..]);
      DashFormed(s[..1]);
    } else {
      EmptyUnformed(s);
    }
  }

  lemma DashOfLength()
    ensures OfLength(Exactly("-"), 1)
  {
  }

  lemma DashFormed(t: string)
    ensures Matches(Exactly("-"), t) <==> Formed(t, "-", HEX_LETTERS)
  {
  }

  lemma EmptyUnformed(s: string)
    requires s == ""
    ensures !Formed(s, "-0000", HEX_LETTERS)
  {
  }

  lemma OneMoreTime(part: Pattern, n: nat, count: nat, s: string)
    requires OfLength(part, n)
    ensures MatchesTimes(part, count + 1, count + 1, s) <==>
      n <= |s| && Matches(part, s[..n]) && MatchesTimes(part, count, count, s[n..])
  {
  }

  lemma ThreeDashed(s: string)
    ensures Matches(THREE_DASHED, s) <==> Formed(s, "-0000-0000-0000", HEX_LETTERS)
  {
    assert Matches(THREE_DASHED, s) <==> MatchesTimes(DASHED, 3, 3, s);
    hide Matches, Formed, In;
    assert OfLength(DASHED, 5) by {
      DashedOfLength();
    }
    OneMoreTime(DASHED, 5, 2, s);
    if |s| >= 5 {
      OneMoreTime(DASHED, 5, 1, s[5..]);
      DashedExact(s[..5]);
      FormedParts(s, "-0000-0000-0000", HEX_LETTERS, 5);
      if |s| >= 10 {
        OneMoreTime(DASHED, 5, 0, s[5..][5..]);
        DashedExact(s[5..][..5]);
        FormedParts(s[5..], "-0000-0000", HEX_LETTERS, 5);
        if |s| >= 15 {
          DashedExact(s[5..][5..][..5]);
          assert |s| == 15 ==> s[5..][5..][..5] == s[5..][5..];
        }
      }
    }
    assert "-0000-0000-0000"[..5] == "-0000" && "-0000-0000-0000"[5..] == "-0000-0000";
    assert "-0000-0000"[..5] == "-0000" && "-0000-0000"[5..] == "-0000";
    FormedLength(s, "-0000-0000-0000", HEX_LETTERS);
    NoMoreTimes(DASHED);
  }

  lemma NoMoreTimes(part: Pattern)
    ensures forall s :: MatchesTimes(part, 0, 0, s) <==> s == ""
  {
  }

  lemma FormedLength(s: string, form: string, chars: Class)
    ensures Formed(s, form, chars) ==> |s| == |form|
  {
  }

  lemma DashedOfLength()
    ensures OfLength(DASHED, 5)
  {
    forall s | Matches(DASHED, s)
      ensures |s| == 5
    {
      DashedExact(s);
      FormedLength(s, "-0000", HEX_LETTERS);
      assert |"-0000"| == 5;
    }
  }

  /** An identifier: `[a-f0-9]{8}(?:-[a-f0-9]{4}){3}-[a-f0-9]{12}`, letters of either case. */
  lemma UuidExact(s: string)
    ensures Uuid(s) <==> Matches(Then(EIGHT, Then(THREE_DASHED, DASH_TWELVE)), s)
  {
    hide *;
    EightOfLength();
    ThreeDashedOfLength();
    FirstOfLength(EIGHT, Then(THREE_DASHED, DASH_TWELVE), 8, s);
    UuidFormed(s);
    UuidLength(s);
    if |s| >= 8 {
      EightExact(s[..8]);
      FirstOfLength(THREE_DASHED, DASH_TWELVE, 15, s[8..]);
      if |s| >= 23 {
        ThreeDashed(s[8..][..15]);
        LastTwelve(s[8..][15..]);
        UuidParts(s);
      }
    }
  }

  lemma UuidLength(s: string)
    ensures Uuid(s) ==> |s| == 36
  {
  }

  lemma UuidParts(s: string)
    requires |s| >= 23
    ensures Formed(s, "00000000-0000-0000-0000-000000000000", HEX_LETTERS) <==>
      && Formed(s[..8], "00000000", HEX_LETTERS) && Formed(s[8..][..15], "-0000-0000-0000", HEX_LETTERS)
      && Formed(s[8..][15..], "-000000000000", HEX_LETTERS)
  {
    hide Formed;
    UuidForms();
    FormedParts(s, "00000000-0000-0000-0000-000000000000", HEX_LETTERS, 8);
    FormedParts(s[8..], "-0000-0000-0000-000000000000", HEX_LETTERS, 15);
  }

  lemma EightExact(t: string)
    ensures Matches(EIGHT, t) <==> Formed(t, "00000000", HEX_LETTERS)
  {
    hide Matches, Formed;
    var zeros := "00000000";
    assert |zeros| == 8;
    ZerosExact(HEX_LETTERS, zeros, t);
  }

  lemma UuidForms()
    ensures var form := "00000000-0000-0000-0000-000000000000";
      |form| == 36 && form[..8] == "00000000" && form[8..] == "-0000-0000-0000-000000000000"
    ensures var form := "-0000-0000-0000-000000000000"; form[..15] == "-0000-0000-0000" && form[15..] == "-000000000000"
  {
    assert "00000000" + "-0000-0000-0000-000000000000" == "00000000-0000-0000-0000-000000000000";
    assert "-0000-0000-0000" + "-000000000000" == "-0000-0000-0000-000000000000";
  }

  lemma LastTwelve(t: string)
    ensures Matches(DASH_TWELVE, t) <==> Formed(t, "-000000000000", HEX_LETTERS)
  {
    hide Matches, Formed, In;
    var zeros := "000000000000";
    assert |zeros| == 12 && "-000000000000"[..1] == "-" && "-000000000000"[1..] == zeros;
    DashOfLength();
    FirstOfLength(Exactly("-"), Times(OneOf(HEX_LETTERS), 12, 12), 1, t);
    if |t| >= 1 {
      FormedParts(t, "-000000000000", HEX_LETTERS, 1);
      ZerosExact(HEX_LETTERS, zeros, t[1..]);
      DashFormed(t[..1]);
    } else {
      FormedLength(t, "-000000000000", HEX_LETTERS);
    }
  }

  lemma EightOfLength()
    ensures OfLength(EIGHT, 8)
  {
    hide Matches;
    forall s | Matches(EIGHT, s)
      ensures |s| == 8
    {
      EightExact(s);
      FormedLength(s, "00000000", HEX_LETTERS);
      assert |"00000000"| == 8;
    }
  }

  lemma ThreeDashedOfLength()
    ensures OfLength(THREE_DASHED, 15)
  {
    hide MatchesTimes, Formed;
    forall s | Matches(THREE_DASHED, s)
      ensures |s| == 15
    {
      ThreeDashed(s);
      FormedLength(s, "-0000-0000-0000", HEX_LETTERS);
      assert |"-0000-0000-0000"| == 15;
    }
  }

  lemma UuidFormed(s: string)
    ensures Uuid(s) <==> Formed(s, "00000000-0000-0000-0000-000000000000", HEX_LETTERS)
  {
    var form := "00000000-0000-0000-0000-000000000000";
    HexLetters();
    hide In;
    assert |form| == 36;
    forall i | 0 <= i < 36
      ensures form[i] == if i in {8, 13, 18, 23} then '-' else '0'
    {
      DashesOf(i);
    }
  }

  lemma DashesOf(i: nat)
    requires i < 36
    ensures var form := "00000000-0000-0000-0000-000000000000";
      |form| == 36 && form[i] == if i in {8, 13, 18, 23} then '-' else '0'
  {
  }
}
