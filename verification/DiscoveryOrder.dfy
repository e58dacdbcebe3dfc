/**
  Why machines with one id must share an alias (`discovery_scan.merge`, `cmdb._slug`):
  without it a third sighting can make the order of collection decide what joins.
*/
module DiscoveryOrder {
  import opened Text
  import opened Wrappers
  import opened DiscoveryMerge
  import opened Ordering

  // ----- The slug that ids are made of -----

  /** `[\w.-]` for ASCII text. */
  predicate Word(c: char) {
    'a' <= c <= 'z' || 'A' <= c <= 'Z' || '0' <= c <= '9' || c in "_.-"
  }

  /** Every run of other characters becomes one dash. */
  function Collapse(s: string, inRun: bool): string {
    if s == [] then []
    else if Word(s[0]) then [s[0]] + Collapse(s[1..], false)
    else (if inRun then [] else ['-']) + Collapse(s[1..], true)
  }

  function StripLeft(s: string): string {
    if s != [] && s[0] == '-' then StripLeft(s[1..]) else s
  }

  function StripRight(s: string): string {
    if s != [] && s[|s| - 1] == '-' then StripRight(s[..|s| - 1]) else s
  }

  const SLUG_LENGTH := 48

  /** `_slug`. */
  function SlugOf(text: string): string {
    var s := StripRight(StripLeft(Collapse(Lower(text), false)));
    var short := if |s| > SLUG_LENGTH then s[..SLUG_LENGTH] else s;
    if short == "" then "ci" else short
  }

  const SLUG: Slug := (text: string) => SlugOf(text)

  lemma {:induction false} WordsStay(s: string)
    requires forall c :: c in s ==> Word(c)
    ensures Collapse(Lower(s), false) == Lower(s) && |Lower(s)| == |s|
  {
    if s != [] {
      assert s == [s[0]] + s[1..];
      WordsStay(s[1..]);
      assert Lower(s)[1..] == Lower(s[1..]);
    }
  }

  lemma NothingToStrip(s: string)
    requires s != "" && s[0] != '-' && s[|s| - 1] != '-'
    ensures StripRight(StripLeft(s)) == s
  {
  }

  lemma LowerEnds(s: string)
    requires s != "" && s[0] != '-' && s[|s| - 1] != '-'
    ensures |Lower(s)| == |s| && Lower(s)[0] != '-' && Lower(s)[|s| - 1] != '-'
  {
    LowerAt(s, 0);
    LowerAt(s, |s| - 1);
  }

  /** Letters, digits, underscores, dots and dashes within are their own slug, in small letters and cut after 48. */
  lemma WordIsItsSlug(s: string)
    requires s != "" && s[0] != '-' && s[|s| - 1] != '-'
    requires forall c :: c in s ==>
               'a' <= c <= 'z' || 'A' <= c <= 'Z' || '0' <= c <= '9' || c == '_' || c == '.' || c == '-'
    ensures |Lower(s)| == |s|
    ensures SlugOf(s) == if |s| > 48 then Lower(s)[..48] else Lower(s)
  {
    WordsStay(s);
    LowerEnds(s);
    NothingToStrip(Lower(s));
  }

  lemma CollapseFirst(x: char, s: string, inRun: bool)
    ensures Collapse([x] + s, inRun)
            == if Word(x) then [x] + Collapse(s, false) else (if inRun then [] else ['-']) + Collapse(s, true)
  {
    assert ([x] + s)[1..] == s;
  }

  /** One character that is no word character becomes one dash. */
  lemma {:induction false} CollapseJoins(a: string, c: char, b: string)
    requires (forall d :: d in a ==> Word(d)) && (forall d :: d in b ==> Word(d)) && !Word(c)
    ensures Collapse(a + ([c] + b), false) == a + (['-'] + b)
  {
    if a == [] {
      CollapseFirst(c, b, false);
      CollapseWord(b, true);
      assert a + ([c] + b) == [c] + b && a + (['-'] + b) == ['-'] + b;
    } else {
      assert a == [a[0]] + a[1..] && a[0] in a;
      CollapseJoins(a[1..], c, b);
      CollapseFirst(a[0], a[1..] + ([c] + b), false);
      assert a + ([c] + b) == [a[0]] + (a[1..] + ([c] + b));
      assert a + (['-'] + b) == [a[0]] + (a[1..] + (['-'] + b));
    }
  }

  lemma {:induction false} CollapseWord(s: string, inRun: bool)
    requires forall d :: d in s ==> Word(d)
    ensures Collapse(s, inRun) == s
  {
    if s != [] {
      assert s == [s[0]] + s[1..];
      CollapseWord(s[1..], false);
    }
  }

  // ----- Labels of a known slug that no alias uses -----

  function Bangs(n: nat): string {
    seq(n, i => '!')
  }

  lemma {:induction false} BangsVanish(n: nat)
    ensures Collapse(Bangs(n), true) == [] && Lower(Bangs(n)) == Bangs(n)
  {
    if n > 0 {
      assert Bangs(n)[1..] == Bangs(n - 1) && Bangs(n) == ['!'] + Bangs(n - 1);
      BangsVanish(n - 1);
    }
  }

  lemma SlugOfBangs(c: char, n: nat)
    requires 'a' <= c <= 'z' && n > 0
    ensures SlugOf([c] + Bangs(n)) == [c]
  {
    var text := [c] + Bangs(n);
    BangsVanish(n - 1);
    BangsVanish(n);
    LowerConcat([c], Bangs(n));
    assert Lower([c]) == [c];
    assert text[1..] == Bangs(n) && Bangs(n)[1..] == Bangs(n - 1);
    assert Collapse(Bangs(n), false) == ['-'];
    assert Collapse(text, false) == [c] + ['-'];
    assert StripLeft([c, '-']) == [c, '-'] && [c, '-'][..1] == [c];
    assert StripRight([c, '-']) == [c];
  }

  lemma {:induction false} LongestOf(names: set<string>) returns (n: nat)
    ensures forall s :: s in names ==> |s| <= n
  {
    n := 0;
    if names != {} {
      var s :| s in names;
      n := LongestOf(names - {s});
      if |s| > n { n := |s|; }
    }
  }

  /** A label of another slug that is none of the given names. */
  lemma OtherLabel(slug: string, names: set<string>) returns (named: string)
    ensures named != "" && named !in names && SlugOf(named) != slug
  {
    var n := LongestOf(names);
    var c := if slug == "x" then 'y' else 'x';
    SlugOfBangs(c, n + 1);
    named := [c] + Bangs(n + 1);
  }

  /** A label that starts with a letter, a digit, a dot, a dash or an underscore, and has a slug of its own. */
  predicate Ordinary(text: string) {
    text != "" && Word(text[0]) && SlugOf(text) != "ci"
  }

  /** A label before an ordinary one, of another slug, that is none of the given names. */
  lemma EarlierLabel(text: string, names: set<string>) returns (named: string)
    requires Ordinary(text)
    ensures named != "" && named !in names && SlugOf(named) != SlugOf(text) && !StrLeq(text, named)
  {
    var n := LongestOf(names);
    named := Bangs(n + 1);
    BangsVanish(n);
    BangsVanish(n + 1);
    assert named[1..] == Bangs(n) && named[0] == '!';
    assert Collapse(named, false) == ['-'];
    assert StripLeft(['-']) == [];
    assert SlugOf(named) == "ci";
  }

  // ----- Three sightings in two orders -----

  function Sighting(ciType: string, name: string, alias: string, observed: bool): DiscoveredCI {
    DiscoveredCI(ciType, name, "", {"scan"}, observed, "", "", map[], {}, {}, None, {alias}, "", "", "", "")
  }

  lemma InTwoOrders(a: DiscoveredCI, b: DiscoveredCI, c: DiscoveredCI, slug: Slug)
    requires Matches(a, b, slug) && !Matches(MergedWith(a, b), c, slug)
    requires Matches(a, c, slug) && Matches(MergedWith(a, c), b, slug)
    ensures |Merged([a, b, c], slug)| == 2 && |Merged([a, c, b], slug)| == 1
  {
    FoldTwo(a, b, slug);
    FoldThird(a, b, c, Record(MergedWith(a, b), {0} + {1}), slug);
    FoldTwo(a, c, slug);
    FoldThird(a, c, b, Record(MergedWith(a, c), {0} + {1}), slug);
    MergedSize([a, b, c], slug);
    MergedSize([a, c, b], slug);
  }

  /** A declaration under another id that shares an alias with `a` and nothing with `c`. */
  lemma BridgeSplits(a: DiscoveredCI, b: DiscoveredCI, c: DiscoveredCI, slug: Slug)
    requires a.HostLike() && a.Label() != "" && c.Label() != ""
    requires a.Declared() ==> !StrLeq(a.Label(), b.name)
    requires a.ciType == c.ciType && slug(a.Label()) == slug(c.Label())
    requires !Overlap(a.IdentityAliases(), c.IdentityAliases())
    requires b == Sighting(a.ciType, b.name, a.Label(), false) && b.name != ""
    requires slug(b.name) != slug(a.Label()) && b.name !in c.IdentityAliases()
    ensures Matches(a, b, slug) && !Matches(MergedWith(a, b), c, slug)
    ensures Matches(a, c, slug) && Matches(MergedWith(a, c), b, slug)
  {
    assert b.Label() == b.name && b.Declared();
    assert a.Label() in a.IdentityAliases() && a.Label() in b.IdentityAliases();
    assert b.IdentityAliases() == {b.name, a.Label()};
    MergedAliases(a, b);
    MergedAliases(a, c);
    assert MergedWith(a, b).Label() == b.name;
    assert a.Label() in MergedWith(a, c).IdentityAliases();
  }

  /**
    Two sightings of machines with one id but no shared alias, one of them undeclared or
    with an ordinary label: there is a third sighting with which the order of collection
    decides how many records remain.
  */
  lemma SharedAliasIsNeeded(a: DiscoveredCI, c: DiscoveredCI) returns (b: DiscoveredCI)
    requires a.HostLike() && a.Label() != "" && c.Label() != "" && (!a.Declared() || Ordinary(a.Label()))
    requires a.ciType == c.ciType && SlugOf(a.Label()) == SlugOf(c.Label())
    requires !Overlap(a.IdentityAliases(), c.IdentityAliases())
    ensures b.Label() != "" && |Merged([a, b, c], SLUG)| == 2 && |Merged([a, c, b], SLUG)| == 1
  {
    var named;
    if a.Declared() {
      named := EarlierLabel(a.Label(), c.IdentityAliases());
    } else {
      named := OtherLabel(SlugOf(a.Label()), c.IdentityAliases());
    }
    b := Sighting(a.ciType, named, a.Label(), false);
    BridgeSplits(a, b, c, SLUG);
    InTwoOrders(a, b, c, SLUG);
  }

  /** One such pair: a blank and a dash give one id. */
  lemma BlankAndDashShareAnId()
    ensures SlugOf("h 1") == "h-1" && SlugOf("h-1") == "h-1"
  {
    assert Lower("h 1") == "h 1" && Lower("h-1") == "h-1" by {
      assert "h 1"[1..] == " 1" && " 1"[1..] == "1" && "1"[1..] == "";
      assert "h-1"[1..] == "-1" && "-1"[1..] == "1";
    }
    assert Collapse("1", false) == "1" && Collapse("1", true) == "1";
    assert Collapse(" 1", false) == "-1" && Collapse("-1", false) == "-1";
    assert Collapse("h 1", false) == "h-1" && Collapse("h-1", false) == "h-1";
  }

  lemma TheSightings(a: DiscoveredCI, b: DiscoveredCI, c: DiscoveredCI)
    requires a == Sighting("host", "h 1", "q", true) && c == Sighting("host", "h-1", "r", true)
    requires b == Sighting("host", "b!", "h 1", false)
    ensures Matches(a, b, SLUG) && !Matches(MergedWith(a, b), c, SLUG)
    ensures Matches(a, c, SLUG) && Matches(MergedWith(a, c), b, SLUG)
    ensures a.HostLike() && !Overlap(a.IdentityAliases(), c.IdentityAliases())
  {
    BlankAndDashShareAnId();
    BangIsDropped();
    NamesOf(a, "h 1", "q");
    NamesOf(c, "h-1", "r");
    BridgeSplits(a, b, c, SLUG);
  }

  lemma BangIsDropped()
    ensures SlugOf("b!") == "b"
  {
    assert Bangs(1) == "!" && ['b'] + Bangs(1) == "b!";
    SlugOfBangs('b', 1);
  }

  lemma NamesOf(a: DiscoveredCI, name: string, alias: string)
    requires a == Sighting("host", name, alias, true) && name != "" && alias != ""
    ensures a.Label() == name && a.IdentityAliases() == {name, alias} && !a.Declared() && a.HostLike()
  {
  }

  lemma OrderCanMatter(a: DiscoveredCI, b: DiscoveredCI, c: DiscoveredCI)
    requires a == Sighting("host", "h 1", "q", true) && c == Sighting("host", "h-1", "r", true)
    requires b == Sighting("host", "b!", "h 1", false)
    ensures !Aligned([a, b, c], SLUG)
    ensures |Merged([a, b, c], SLUG)| == 2 && |Merged([a, c, b], SLUG)| == 1
  {
    TheSightings(a, b, c);
    InTwoOrders(a, b, c, SLUG);
    ThreeNotAligned(a, b, c, SLUG);
  }

  lemma ThreeNotAligned(a: DiscoveredCI, b: DiscoveredCI, c: DiscoveredCI, slug: Slug)
    requires a.HostLike() && Matches(a, c, slug) && !Overlap(a.IdentityAliases(), c.IdentityAliases())
    ensures !Aligned([a, b, c], slug)
  {
    var items := [a, b, c];
    assert items[0] == a && items[2] == c;
    NotAligned(items, slug);
  }

  lemma NotAligned(items: seq<DiscoveredCI>, slug: Slug)
    requires |items| == 3 && items[0].HostLike() && Matches(items[0], items[2], slug)
    requires !Overlap(items[0].IdentityAliases(), items[2].IdentityAliases())
    ensures !Aligned(items, slug)
  {
  }
}
