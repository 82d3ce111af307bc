/** The formatting palette and the two idioms every renderer shares: the
    decorated "repo: user" prefix and the truncation of free text.

    The palette follows the modern IRC text-formatting conventions: the byte
    0x02 toggles bold, the byte 0x03 starts a colour, and a colour is written as
    two decimal digits (`<fg>,<bg>`). */
module Formatting {
  import opened Wrappers
  import opened Text

  /** Names a renderer looks up in the palette to build the shared prefix. */
  const DecorationNames: set<string> := {"color", "black", "yellow", "bold"}

  const BoldCode: string := "\U{2}"
  const ColorCode: string := "\U{3}"

  /** A palette is usable by the renderers when every name they look up is present. */
  predicate Decorates(fmt: map<string, string>) {
    DecorationNames <= fmt.Keys
  }

  /** Two ASCII digits: how the formatting conventions write a colour number. */
  predicate IsColourNumber(code: string) {
    |code| == 2 && IsDigit(code[0]) && IsDigit(code[1])
  }

  /** The palette the application hands to every renderer (app.py, `self.formatting`). */
  function Palette(): (p: map<string, string>)
    ensures Decorates(p)
    ensures p["bold"] == BoldCode && p["color"] == ColorCode
    ensures forall name :: name in p && name != "bold" && name != "color" ==> IsColourNumber(p[name])
  {
    map[
      "bold" := BoldCode,
      "color" := ColorCode,
      "white" := "00",
      "black" := "01",
      "blue" := "02",
      "green" := "03",
      "red" := "04",
      "brown" := "05",
      "magenta" := "06",
      "orange" := "07",
      "yellow" := "08",
      "lightgreen" := "09",
      "cyan" := "10",
      "lightcyan" := "11",
      "lightblue" := "12",
      "pink" := "13",
      "grey" := "14",
      "lightgrey" := "15",
      "default" := "99"
    ]
  }

  /** The repository name in the palette's black-on-yellow colour, colour reset after it. */
  function DecoratedRepo(repo: string, fmt: map<string, string>): string
    requires Decorates(fmt)
  {
    fmt["color"] + fmt["black"] + "," + fmt["yellow"] + repo + fmt["color"]
  }

  /** The user's login in bold, bold toggled off after it. */
  function DecoratedUser(user: string, fmt: map<string, string>): string
    requires Decorates(fmt)
  {
    fmt["bold"] + user + fmt["bold"]
  }

  /** The opening shared by every rendered message: `<repo>: <user>`, decorated. */
  function Prefix(repo: string, user: string, fmt: map<string, string>): string
    requires Decorates(fmt)
  {
    DecoratedRepo(repo, fmt) + ": " + DecoratedUser(user, fmt)
  }

  const PrefixOpening: string := "\U{3}01,08"
  const PrefixMiddle: string := "\U{3}: \U{2}"

  /** With the application's palette the prefix is colour 01,08 around the
      repository, then bold around the user; the names appear verbatim. */
  lemma PalettePrefix(repo: string, user: string)
    ensures Prefix(repo, user, Palette()) == PrefixOpening + repo + PrefixMiddle + user + BoldCode
    ensures |Prefix(repo, user, Palette())| == |repo| + |user| + 11
  {
  }

  /** The same prefix, followed by the rest of a message, grouped from the right. */
  lemma PalettePrefixThen(repo: string, user: string, rest: string)
    ensures Prefix(repo, user, Palette()) + rest == PrefixOpening + (repo + (PrefixMiddle + (user + (BoldCode + rest))))
  {
    PalettePrefix(repo, user);
  }

  /** Reads the repository name and the user's login back out of a message
      decorated with the application's palette; none when the text does not
      open with that decoration. */
  function ReadPrefix(text: string): Option<(string, string)> {
    if !StartsWith(text, PrefixOpening) then None else ReadNames(text[|PrefixOpening|..])
  }

  /** The repository name up to the colour reset, then ": " and the login. */
  function ReadNames(s: string): Option<(string, string)> {
    var i := IndexOf(s, '\U{3}');
    if !StartsWith(s[i..], PrefixMiddle) then None
    else
      match ReadLogin(s[i + |PrefixMiddle|..])
      case None => None
      case Some(user) => Some((s[..i], user))
  }

  /** The login up to the bold toggle that ends it. */
  function ReadLogin(u: string): Option<string> {
    var k := IndexOf(u, '\U{2}');
    if k == |u| then None else Some(u[..k])
  }

  lemma LoginReadsBack(user: string, rest: string)
    requires '\U{2}' !in user
    ensures ReadLogin(user + (BoldCode + rest)) == Some(user)
  {
    IndexOfAppend(user, BoldCode + rest, '\U{2}');
    assert (user + (BoldCode + rest))[..|user|] == user;
  }

  lemma NamesReadBack(repo: string, user: string, rest: string)
    requires '\U{3}' !in repo && '\U{2}' !in user
    ensures ReadNames(repo + (PrefixMiddle + (user + (BoldCode + rest)))) == Some((repo, user))
  {
    var u := user + (BoldCode + rest);
    var t := PrefixMiddle + u;
    var s := repo + t;
    assert IndexOf(s, '\U{3}') == |repo| by {
      IndexOfAppend(repo, t, '\U{3}');
      assert t[0] == '\U{3}';
    }
    assert s[..|repo|] == repo && s[|repo|..] == t;
    assert t[..|PrefixMiddle|] == PrefixMiddle && t[|PrefixMiddle|..] == u;
    assert s[|repo| + |PrefixMiddle|..] == u;
    LoginReadsBack(user, rest);
    ReadNamesAt(s, |repo|);
  }

  /** How `ReadNames` reads text whose first colour code sits at `i` and opens the middle. */
  lemma ReadNamesAt(s: string, i: nat)
    requires i <= |s| && IndexOf(s, '\U{3}') == i
    requires StartsWith(s[i..], PrefixMiddle)
    requires ReadLogin(s[i + |PrefixMiddle|..]).Some?
    ensures ReadNames(s) == Some((s[..i], ReadLogin(s[i + |PrefixMiddle|..]).value))
  {
  }

  /** The names a message opens with can be read back from it, as long as the
      repository name holds no colour code and the login no bold code. */
  lemma PrefixReadsBack(repo: string, user: string, rest: string)
    requires '\U{3}' !in repo && '\U{2}' !in user
    ensures ReadPrefix(Prefix(repo, user, Palette()) + rest) == Some((repo, user))
  {
    PalettePrefixThen(repo, user, rest);
    var s := repo + (PrefixMiddle + (user + (BoldCode + rest)));
    var text := Prefix(repo, user, Palette()) + rest;
    assert text[|PrefixOpening|..] == s;
    NamesReadBack(repo, user, rest);
  }

  /** A login that is read back holds no bold code, and the text opens with it in bold. */
  lemma LoginReadSound(u: string)
    requires ReadLogin(u).Some?
    ensures '\U{2}' !in ReadLogin(u).value
    ensures StartsWith(u, ReadLogin(u).value + BoldCode)
  {
    var k := IndexOf(u, '\U{2}');
    assert forall j :: 0 <= j < k ==> u[..k][j] == u[j];
    assert u[..k + 1] == u[..k] + BoldCode;
  }

  /** Names that are read back hold no colour or bold code respectively, and
      the text opens with them in the middle decoration. */
  lemma NamesReadSound(s: string, repo: string, user: string)
    requires ReadNames(s) == Some((repo, user))
    ensures '\U{3}' !in repo && '\U{2}' !in user
    ensures StartsWith(s, repo + (PrefixMiddle + (user + BoldCode)))
  {
    var i := IndexOf(s, '\U{3}');
    var u := s[i + |PrefixMiddle|..];
    LoginReadSound(u);
    assert forall j :: 0 <= j < i ==> s[..i][j] == s[j];
    assert s[i..][|PrefixMiddle|..] == u;
    StartsWithThen(s[i..], PrefixMiddle, user + BoldCode);
    assert s[|repo|..] == s[i..];
    StartsWithThen(s, repo, PrefixMiddle + (user + BoldCode));
  }

  /** The text a successful `ReadPrefix` read opens with the colour opening,
      then the names in the middle decoration. */
  lemma PrefixReadOpening(text: string, repo: string, user: string)
    requires ReadPrefix(text) == Some((repo, user))
    ensures '\U{3}' !in repo && '\U{2}' !in user
    ensures StartsWith(text, PrefixOpening + (repo + (PrefixMiddle + (user + BoldCode))))
  {
    NamesReadSound(text[|PrefixOpening|..], repo, user);
    StartsWithThen(text, PrefixOpening, repo + (PrefixMiddle + (user + BoldCode)));
  }

  /** Whatever names `ReadPrefix` finds are exactly the decorated prefix the
      text opens with, and they meet the conditions under which
      `PrefixReadsBack` reads them back: the reader is the partner of `Prefix`. */
  lemma PrefixReadSound(text: string)
    requires ReadPrefix(text).Some?
    ensures '\U{3}' !in ReadPrefix(text).value.0 && '\U{2}' !in ReadPrefix(text).value.1
    ensures StartsWith(text, Prefix(ReadPrefix(text).value.0, ReadPrefix(text).value.1, Palette()))
  {
    var (repo, user) := ReadPrefix(text).value;
    PrefixReadOpening(text, repo, user);
    PalettePrefix(repo, user);
    assert PrefixOpening + repo + PrefixMiddle + user + BoldCode == PrefixOpening + (repo + (PrefixMiddle + (user + BoldCode)));
  }

  /** How many characters of a title or comment body a message quotes. */
  const TruncationLimit: nat := 32

  /** Shortening of issue and pull-request titles and of comment bodies: text of
      at most 32 characters is kept as it is, longer text keeps its first 32
      characters followed by "...". */
  function Truncate(s: string): (r: string)
    ensures |r| <= TruncationLimit + 3
    ensures |s| <= TruncationLimit ==> r == s
    ensures |s| > TruncationLimit ==> |r| == TruncationLimit + 3 && StartsWith(r, s[..TruncationLimit]) && EndsWith(r, "...")
  {
    if |s| <= TruncationLimit then s else s[..TruncationLimit] + "..."
  }

  /** Truncating twice is truncating once: a truncated text of 35 characters is
      cut back to the same 32 characters and gets the same ellipsis. */
  lemma TruncateIdempotent(s: string)
    ensures Truncate(Truncate(s)) == Truncate(s)
  {
    if |s| > TruncationLimit {
      var r := Truncate(s);
      assert r[..TruncationLimit] == s[..TruncationLimit];
    }
  }

  /** The texts truncation leaves unchanged: the short ones, and the 35-character
      ones whose last three characters already are "...". */
  lemma TruncateFixedPoints(s: string)
    ensures Truncate(s) == s <==> |s| <= TruncationLimit || (|s| == TruncationLimit + 3 && s[TruncationLimit..] == "...")
  {
    if |s| > TruncationLimit {
      if |s| == TruncationLimit + 3 && s[TruncationLimit..] == "..." {
        assert s[..TruncationLimit] + s[TruncationLimit..] == s;
      }
      if Truncate(s) == s {
        assert s[TruncationLimit..] == Truncate(s)[TruncationLimit..];
      }
    }
  }
}
