/** The programme fields of the guide that follow rules rather than copying:
    genre classes, the category list, the sub-title and the removal of
    characters XML 1.0 does not allow. */
module Guide {
  import opened Wrappers
  import opened Text
  import opened Backend

  /** One canonical genre name and the service genres it covers. */
  datatype GenreClass = GenreClass(name: string, members: seq<string>)

  /** The genre taxonomy, in its declared order. */
  const SERIES_GENRES: seq<GenreClass> := [
    GenreClass("Animated", ["Family Animation", "Cartoons"]),
    GenreClass("Educational", ["Education & Guidance", "Instructional & Educational"]),
    GenreClass("News", ["News and Information", "General News", "News + Opinion", "General News"]),
    GenreClass("History", ["History & Social Studies"]),
    GenreClass("Politics", ["Politics"]),
    GenreClass("Action", [
      "Action & Adventure", "Action Classics", "Martial Arts", "Crime Action",
      "Family Adventures", "Action Sci-Fi & Fantasy", "Action Thrillers", "African-American Action"]),
    GenreClass("Adventure", ["Action & Adventure", "Adventures", "Sci-Fi Adventure"]),
    GenreClass("Reality", ["Reality", "Reality Drama", "Courtroom Reality", "Occupational Reality", "Celebrity Reality"]),
    GenreClass("Documentary", [
      "Documentaries", "Social & Cultural Documentaries", "Science and Nature Documentaries",
      "Miscellaneous Documentaries", "Crime Documentaries", "Travel & Adventure Documentaries",
      "Sports Documentaries", "Military Documentaries", "Political Documentaries", "Foreign Documentaries",
      "Religion & Mythology Documentaries", "Historical Documentaries", "Biographical Documentaries",
      "Faith & Spirituality Documentaries"]),
    GenreClass("Biography", ["Biographical Documentaries", "Inspirational Biographies"]),
    GenreClass("Science Fiction", ["Sci-Fi Thrillers", "Sci-Fi Adventure", "Action Sci-Fi & Fantasy"]),
    GenreClass("Thriller", ["Sci-Fi Thrillers", "Thrillers", "Crime Thrillers"]),
    GenreClass("Talk", ["Talk & Variety", "Talk Show"]),
    GenreClass("Variety", ["Sketch Comedies"]),
    GenreClass("Home Improvement", ["Art & Design", "DIY & How To", "Home Improvement"]),
    GenreClass("House/garden", ["Home & Garden"]),
    GenreClass("Cooking", ["Cooking Instruction", "Food & Wine", "Food Stories"]),
    GenreClass("Travel", ["Travel & Adventure Documentaries", "Travel"]),
    GenreClass("Western", ["Westerns", "Classic Westerns"]),
    GenreClass("LGBTQ", ["Gay & Lesbian", "Gay & Lesbian Dramas", "Gay"]),
    GenreClass("Game show", ["Game Show"]),
    GenreClass("Military", ["Classic War Stories"]),
    GenreClass("Comedy", [
      "Cult Comedies", "Spoofs and Satire", "Slapstick", "Classic Comedies", "Stand-Up",
      "Sports Comedies", "African-American Comedies", "Showbiz Comedies", "Sketch Comedies",
      "Teen Comedies", "Latino Comedies", "Family Comedies"]),
    GenreClass("Crime", ["Crime Action", "Crime Drama", "Crime Documentaries"]),
    GenreClass("Sports", ["Sports", "Sports & Sports Highlights", "Sports Documentaries", "Poker & Gambling"]),
    GenreClass("Poker & Gambling", ["Poker & Gambling"]),
    GenreClass("Crime drama", ["Crime Drama"]),
    GenreClass("Drama", ["Classic Dramas", "Family Drama", "Indie Drama", "Romantic Drama", "Crime Drama"]),
    GenreClass("Children", ["Kids", "Children & Family", "Kids' TV", "Cartoons", "Animals", "Family Animation", "Ages 2-4", "Ages 11-12"])
  ]

  /** The names of the classes covering `value`, in taxonomy order. */
  function Covering(classes: seq<GenreClass>, value: string): (r: seq<string>)
    ensures |r| <= |classes|
    ensures forall n :: n in r <==> exists k :: 0 <= k < |classes| && classes[k].name == n && value in classes[k].members
    decreases |classes|
  {
    if classes == [] then []
    else
      var n := |classes| - 1;
      var r := Covering(classes[..n], value);
      assert forall k :: 0 <= k < n ==> classes[..n][k] == classes[k];
      if value in classes[n].members then r + [classes[n].name] else r
  }

  /** One class contributes its name exactly when it covers the value. */
  lemma CoveringSingle(c: GenreClass, value: string)
    ensures Covering([c], value) == if value in c.members then [c.name] else []
  {
    assert [c][..0] == [];
  }

  /** The classes are visited in order: a split taxonomy gives the names of
      the first part, then those of the second. */
  lemma {:induction false} CoveringAppend(a: seq<GenreClass>, b: seq<GenreClass>, value: string)
    ensures Covering(a + b, value) == Covering(a, value) + Covering(b, value)
    decreases |b|
  {
    if b == [] {
      assert a + b == a;
    } else {
      var n := |b| - 1;
      assert (a + b)[..|a + b| - 1] == a + b[..n];
      assert (a + b)[|a + b| - 1] == b[n];
      CoveringAppend(a, b[..n], value);
    }
  }

  /** No name occurs twice. */
  predicate NoRepeats(names: seq<string>)
  {
    forall i, j :: 0 <= i < j < |names| ==> names[i] != names[j]
  }

  /** With distinct class names, no name is listed twice. */
  lemma {:induction false} CoveringDistinct(classes: seq<GenreClass>, value: string)
    requires forall i, j :: 0 <= i < j < |classes| ==> classes[i].name != classes[j].name
    ensures NoRepeats(Covering(classes, value))
    decreases |classes|
  {
    if classes != [] {
      var n := |classes| - 1;
      var init := classes[..n];
      assert forall i :: 0 <= i < n ==> init[i] == classes[i];
      var r := Covering(init, value);
      CoveringDistinct(init, value);
      assert classes[n].name !in r;
      if value in classes[n].members {
        var r' := r + [classes[n].name];
        forall i, j | 0 <= i < j < |r'| ensures r'[i] != r'[j] {
          assert r'[i] == r[i] && r[i] in r;
          if j < |r| {
            assert r'[j] == r[j];
          } else {
            assert r'[j] == classes[n].name;
          }
        }
        assert Covering(classes, value) == r';
      }
      assert Covering(classes, value) == if value in classes[n].members then r + [classes[n].name] else r;
    }
  }

  /** `find_tuples_by_value`: every class covering the value, or the value
      itself when none does. */
  function FindTuplesByValue(classes: seq<GenreClass>, value: string): (r: seq<string>)
    ensures r != []
    ensures (exists k :: 0 <= k < |classes| && value in classes[k].members) ==>
      forall n :: n in r <==> exists k :: 0 <= k < |classes| && classes[k].name == n && value in classes[k].members
    ensures (forall k :: 0 <= k < |classes| ==> value !in classes[k].members) ==> r == [value]
    ensures Covering(classes, value) != [] ==> r == Covering(classes, value)
  {
    var found := Covering(classes, value);
    if found == [] then
      assert forall k :: 0 <= k < |classes| && value in classes[k].members ==> classes[k].name in found;
      [value]
    else
      assert found[0] in found;
      found
  }

  /** A value no class covers has no class. */
  lemma CoveringNone(classes: seq<GenreClass>, value: string)
    requires forall j :: 0 <= j < |classes| ==> value !in classes[j].members
    ensures Covering(classes, value) == []
  {
  }

  /** A value covered by exactly one class is classified as that class alone. */
  lemma {:induction false} CoveringOnly(classes: seq<GenreClass>, value: string, k: nat)
    requires k < |classes| && value in classes[k].members
    requires forall j :: 0 <= j < |classes| && j != k ==> value !in classes[j].members
    ensures Covering(classes, value) == [classes[k].name]
    decreases |classes|
  {
    var n := |classes| - 1;
    assert forall j :: 0 <= j < n ==> classes[..n][j] == classes[j];
    if k < n {
      CoveringOnly(classes[..n], value, k);
    } else {
      CoveringNone(classes[..n], value);
    }
  }

  /** No class with an index in [lo, hi) lists `value`. */
  predicate AbsentIn(value: string, lo: nat, hi: nat)
    requires lo <= hi <= |SERIES_GENRES|
  {
    forall j :: lo <= j < hi ==> value !in SERIES_GENRES[j].members
  }

  // The two example genres checked against the taxonomy a few classes at a time.
  lemma Classes0To5()
    ensures AbsentIn("Martial Arts", 0, 5) && AbsentIn("Opera", 0, 6)
  {
  }

  lemma Classes6To7()
    ensures AbsentIn("Martial Arts", 6, 8) && AbsentIn("Opera", 6, 8)
  {
  }

  lemma Class8MartialArts()
    ensures AbsentIn("Martial Arts", 8, 9)
  {
  }

  lemma Class8Opera()
    ensures AbsentIn("Opera", 8, 9)
  {
  }

  lemma Classes9To11()
    ensures AbsentIn("Martial Arts", 9, 12) && AbsentIn("Opera", 9, 12)
  {
  }

  lemma Classes12To17()
    ensures AbsentIn("Martial Arts", 12, 18) && AbsentIn("Opera", 12, 18)
  {
  }

  lemma Classes18To20()
    ensures AbsentIn("Martial Arts", 18, 21) && AbsentIn("Opera", 18, 21)
  {
  }

  lemma Classes21To22()
    ensures AbsentIn("Martial Arts", 21, 23) && AbsentIn("Opera", 21, 23)
  {
  }

  lemma Class23()
    ensures AbsentIn("Martial Arts", 23, 24) && AbsentIn("Opera", 23, 24)
  {
  }

  lemma Classes24To28()
    ensures |SERIES_GENRES| == 29
    ensures AbsentIn("Martial Arts", 24, 29) && AbsentIn("Opera", 24, 29)
  {
  }

  /** "Martial Arts" is an Action genre only. */
  lemma MartialArtsIsAction()
    ensures FindTuplesByValue(SERIES_GENRES, "Martial Arts") == ["Action"]
  {
    assert SERIES_GENRES[5].name == "Action";
    assert "Martial Arts" in SERIES_GENRES[5].members;
    Classes0To5();
    Classes6To7();
    Class8MartialArts();
    Class8Opera();
    Classes9To11();
    Classes12To17();
    Classes18To20();
    Classes21To22();
    Class23();
    Classes24To28();
    CoveringOnly(SERIES_GENRES, "Martial Arts", 5);
  }

  /** A genre no class covers stands for itself. */
  lemma UnknownGenreStandsForItself()
    ensures FindTuplesByValue(SERIES_GENRES, "Opera") == ["Opera"]
  {
    Classes0To5();
    Classes6To7();
    Class8MartialArts();
    Class8Opera();
    Classes9To11();
    Classes12To17();
    Classes18To20();
    Classes21To22();
    Class23();
    Classes24To28();
    CoveringNone(SERIES_GENRES, "Opera");
  }

  /** The first-seen-order deduplication of `read_epg_data`, leaving out
      everything already in `seen` as well. */
  function DedupFrom(seen: set<string>, xs: seq<string>): (r: seq<string>)
    ensures forall i, j :: 0 <= i < j < |r| ==> r[i] != r[j]
    ensures forall x :: x in r <==> x in xs && x !in seen
    decreases |xs|
  {
    if xs == [] then []
    else
      var n := |xs| - 1;
      var r := DedupFrom(seen, xs[..n]);
      assert xs == xs[..n] + [xs[n]];
      if xs[n] in seen || xs[n] in r then r else r + [xs[n]]
  }

  function Members(xs: seq<string>): set<string>
  {
    set x | x in xs
  }

  function Dedup(xs: seq<string>): seq<string>
  {
    DedupFrom({}, xs)
  }

  /** Deduplicating a concatenation deduplicates the first part, then what of
      the second part is new. */
  lemma {:induction false} DedupFromAppend(seen: set<string>, a: seq<string>, b: seq<string>)
    ensures DedupFrom(seen, a + b) == DedupFrom(seen, a) + DedupFrom(seen + Members(a), b)
    decreases |b|
  {
    if b == [] {
      assert a + b == a;
    } else {
      var n := |b| - 1;
      DedupFromAppend(seen, a, b[..n]);
      assert (a + b)[..|a + b| - 1] == a + b[..n];
      var x := b[n];
      assert x in seen + Members(a) <==> x in seen || x in a;
    }
  }

  /** The category list of one timeline, before deduplication: the genre's
      classes when the genre is present and non-empty, "Series" for a tv
      series or "Movie" for a film, then the sub-genre's classes. */
  function RawCategories(ep: Episode): seq<string>
  {
    GenreClasses(ep.genre) + SeriesKind(ep.seriesType) + GenreClasses(ep.subGenre)
  }

  function GenreClasses(genre: Option<string>): seq<string>
  {
    if genre.Some? && genre.value != "" then FindTuplesByValue(SERIES_GENRES, genre.value) else []
  }

  function SeriesKind(seriesType: string): seq<string>
  {
    if seriesType == "tv" then ["Series"] else if seriesType == "film" then ["Movie"] else []
  }

  /** The `<category>` values of one programme. */
  function Categories(ep: Episode): seq<string>
  {
    Dedup(RawCategories(ep))
  }

  /** The categories are distinct, are exactly the raw ones, and come in three
      blocks: the genre's classes, then "Series"/"Movie" unless already
      listed, then the sub-genre's classes not yet listed. */
  lemma CategoriesBlocks(ep: Episode)
    ensures forall i, j :: 0 <= i < j < |Categories(ep)| ==> Categories(ep)[i] != Categories(ep)[j]
    ensures forall c :: c in Categories(ep) <==> c in RawCategories(ep)
    ensures Categories(ep) ==
      Dedup(GenreClasses(ep.genre))
      + DedupFrom(Members(GenreClasses(ep.genre)), SeriesKind(ep.seriesType))
      + DedupFrom(Members(GenreClasses(ep.genre) + SeriesKind(ep.seriesType)), GenreClasses(ep.subGenre))
  {
    var g := GenreClasses(ep.genre);
    var t := SeriesKind(ep.seriesType);
    var u := GenreClasses(ep.subGenre);
    DedupFromAppend({}, g + t, u);
    DedupFromAppend({}, g, t);
    assert {} + Members(g) == Members(g);
    assert {} + Members(g + t) == Members(g + t);
  }

  /** A class repeated by the sub-genre is listed once. */
  lemma DedupExample()
    ensures Dedup(["Action", "Series", "Action"]) == ["Action", "Series"]
  {
    assert ["Action", "Series", "Action"][..2] == ["Action", "Series"];
    assert ["Action", "Series"][..1] == ["Action"];
    assert ["Action"][..0] == [];
    assert Dedup(["Action"]) == ["Action"];
    assert Dedup(["Action", "Series"]) == ["Action", "Series"];
  }

  /** A tv episode with genre and sub-genre "Martial Arts" gets "Action" once,
      then "Series". */
  lemma CategoriesExample()
    ensures Categories(Episode("e", "d", Some("Martial Arts"), Some("Martial Arts"), "tv")) == ["Action", "Series"]
  {
    var ep := Episode("e", "d", Some("Martial Arts"), Some("Martial Arts"), "tv");
    MartialArtsIsAction();
    assert RawCategories(ep) == ["Action", "Series", "Action"];
    DedupExample();
  }

  /** The characters XML 1.0 does not allow and the guide removes:
      0x00-0x08, 0x0B, 0x0C and 0x0E-0x1F. */
  predicate Illegal(c: char)
  {
    var k := c as int;
    k <= 0x08 || k == 0x0B || k == 0x0C || (0x0E <= k <= 0x1F)
  }

  /** `strip_illegal_characters`: every illegal character goes. */
  function Strip(s: string): (r: string)
    ensures forall i :: 0 <= i < |r| ==> !Illegal(r[i])
    ensures |r| <= |s|
  {
    if s == [] then []
    else if Illegal(s[0]) then Strip(s[1..])
    else [s[0]] + Strip(s[1..])
  }

  /** Stripping works character by character: a concatenation strips to the
      concatenation of the stripped parts. */
  lemma {:induction false} StripAppend(a: string, b: string)
    ensures Strip(a + b) == Strip(a) + Strip(b)
  {
    if a == [] {
      assert a + b == b;
    } else {
      assert (a + b)[0] == a[0];
      assert (a + b)[1..] == a[1..] + b;
      StripAppend(a[1..], b);
      if !Illegal(a[0]) {
        assert [a[0]] + (Strip(a[1..]) + Strip(b)) == ([a[0]] + Strip(a[1..])) + Strip(b);
      }
    }
  }

  /** Legal characters all stay, in order. */
  lemma {:induction false} StripKeepsLegal(s: string)
    requires forall i :: 0 <= i < |s| ==> !Illegal(s[i])
    ensures Strip(s) == s
  {
    if s != [] {
      StripKeepsLegal(s[1..]);
    }
  }

  /** A single character is dropped exactly when it is illegal; with
      `StripAppend` this pins `Strip` down on every string. */
  lemma StripSingle(c: char)
    ensures Strip([c]) == if Illegal(c) then [] else [c]
  {
  }

  /** Stripping twice is stripping once. */
  lemma StripIdempotent(s: string)
    ensures Strip(Strip(s)) == Strip(s)
  {
    StripKeepsLegal(Strip(s));
  }

  /** The `<sub-title>`: the stripped episode name, present only when it
      differs from the title ignoring case. */
  function SubTitle(title: string, episodeName: string): (sub: Option<string>)
    ensures sub.Some? <==> Lower(title) != Lower(episodeName)
    ensures sub.Some? ==> sub.value == Strip(episodeName)
  {
    if Lower(title) != Lower(episodeName) then Some(Strip(episodeName)) else None
  }

  /** The same name in another case gives no sub-title; another name does. */
  lemma SubTitleExamples()
    ensures SubTitle("News", "NEWS").None?
    ensures SubTitle("News", "Pilot") == Some("Pilot")
  {
    assert Lower("News") == "news";
    assert Lower("NEWS") == "news";
    assert Lower("Pilot") == "pilot";
    assert Lower("News") != Lower("Pilot") by {
      assert |Lower("News")| == 4 && |Lower("Pilot")| == 5;
    }
    StripKeepsLegal("Pilot");
  }

  /** The rule-governed fields of one `<programme>` element. */
  datatype Programme = Programme(
    channel: string, start: Stamp, stop: Stamp,
    title: string, subTitle: Option<string>, categories: seq<string>)

  function MakeProgramme(channelId: string, t: Timeline): (p: Programme)
    ensures p.channel == channelId && p.start == t.start && p.stop == t.stop
    ensures p.title == Strip(t.title)
    ensures p.subTitle == SubTitle(t.title, t.episode.name)
    ensures p.categories == Categories(t.episode)
  {
    Programme(channelId, t.start, t.stop, Strip(t.title), SubTitle(t.title, t.episode.name), Categories(t.episode))
  }
}
