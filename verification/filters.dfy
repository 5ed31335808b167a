/** The per-declaration filters of index.js: `createPropListMatcher` and
    `blacklistedSelector`. */
module Filters {
  import opened Strings
  import opened Settings

  /** The eight lists `lib/filter-prop-list` derives from `propList` (that
      module is not part of this model: the lists are inputs). */
  datatype PropLists = PropLists(
    exact: seq<string>,
    contain: seq<string>,
    startWith: seq<string>,
    endWith: seq<string>,
    notExact: seq<string>,
    notContain: seq<string>,
    notStartWith: seq<string>,
    notEndWith: seq<string>)

  // The three indexOf tests of the matcher, exactly as written.

  /** `prop.indexOf(m) > -1`. */
  predicate ContainTest(prop: string, m: string) {
    IndexOf(prop, m) > -1
  }

  /** `prop.indexOf(m) === 0`. */
  predicate StartTest(prop: string, m: string) {
    IndexOf(prop, m) == 0
  }

  /** `prop.indexOf(m) === prop.length - m.length`. It looks at the FIRST
      occurrence only, and an absent m (index -1) one character longer than
      prop passes. */
  predicate EndTest(prop: string, m: string) {
    IndexOf(prop, m) == |prop| - |m|
  }

  predicate AnyContain(ms: seq<string>, prop: string) {
    exists m :: m in ms && ContainTest(prop, m)
  }

  predicate AnyStart(ms: seq<string>, prop: string) {
    exists m :: m in ms && StartTest(prop, m)
  }

  predicate AnyEnd(ms: seq<string>, prop: string) {
    exists m :: m in ms && EndTest(prop, m)
  }

  /** The predicate `createPropListMatcher(propList)` returns, applied to `prop`. */
  predicate SatisfyPropList(propList: seq<string>, lists: PropLists, prop: string) {
    var hasWild := "*" in propList;
    var matchAll := hasWild && |propList| == 1;
    if matchAll then true
    else
      && (|| hasWild
          || prop in lists.exact
          || AnyContain(lists.contain, prop)
          || AnyStart(lists.startWith, prop)
          || AnyEnd(lists.endWith, prop))
      && !(|| prop in lists.notExact
           || AnyContain(lists.notContain, prop)
           || AnyStart(lists.notStartWith, prop)
           || AnyEnd(lists.notEndWith, prop))
  }

  // What the tests mean, stated without indexOf.

  /** m is a suffix of prop and does not occur earlier in it. */
  ghost predicate EndsAtFirstOccurrence(prop: string, m: string) {
    && |m| <= |prop|
    && prop[|prop| - |m|..] == m
    && forall j :: 0 <= j < |prop| - |m| ==> !OccursAt(prop, m, j)
  }

  /** The meaning of EndTest: m is one character longer than prop, or m ends
      prop and occurs nowhere earlier. */
  ghost predicate EndsWithAsTested(prop: string, m: string) {
    |m| == |prop| + 1 || EndsAtFirstOccurrence(prop, m)
  }

  lemma ContainTestMeaning(prop: string, m: string)
    ensures ContainTest(prop, m) <==> Contains(prop, m)
  {
  }

  lemma StartTestMeaning(prop: string, m: string)
    ensures StartTest(prop, m) <==> m <= prop
  {
    if m <= prop {
      assert OccursAt(prop, m, 0);
    }
  }

  lemma EndTestMeaning(prop: string, m: string)
    ensures EndTest(prop, m) <==> EndsWithAsTested(prop, m)
  {
    var k := |prop| - |m|;
    if |m| == |prop| + 1 {
      assert !Contains(prop, m);
    } else if EndsAtFirstOccurrence(prop, m) {
      assert OccursAt(prop, m, k);
    }
  }

  /** A first occurrence earlier than the end hides a later one: "abab"
      does not pass the ends-with test for "ab" although it ends with "ab". */
  lemma EndTestSeesFirstOccurrenceOnly()
    ensures "abab"[2..] == "ab"
    ensures !EndTest("abab", "ab")
  {
    assert OccursAt("abab", "ab", 0);
  }

  /** An absent m one character longer than prop passes the ends-with test. */
  lemma EndTestPassesLongerByOne(prop: string, m: string)
    requires |m| == |prop| + 1
    ensures EndTest(prop, m) && !Contains(prop, m)
  {
    EndTestMeaning(prop, m);
  }

  /** In practice: with the ends-with rule `-width` (written `*-width` in
      `propList`), every five-letter property such as `color` passes, because
      "-width" is absent from it and one character longer. */
  lemma EndsWithRuleAcceptsShorterProperty()
    ensures !Contains("color", "-width")
    ensures SatisfyPropList(["*-width"], PropLists([], [], [], ["-width"], [], [], [], []), "color")
  {
    EndTestPassesLongerByOne("color", "-width");
    assert "-width" in ["-width"];
  }

  ghost predicate PositiveRule(lists: PropLists, prop: string) {
    || prop in lists.exact
    || (exists m :: m in lists.contain && Contains(prop, m))
    || (exists m :: m in lists.startWith && m <= prop)
    || (exists m :: m in lists.endWith && EndsWithAsTested(prop, m))
  }

  ghost predicate NegativeRule(lists: PropLists, prop: string) {
    || prop in lists.notExact
    || (exists m :: m in lists.notContain && Contains(prop, m))
    || (exists m :: m in lists.notStartWith && m <= prop)
    || (exists m :: m in lists.notEndWith && EndsWithAsTested(prop, m))
  }

  lemma TestsMeaning(ms: seq<string>, prop: string)
    ensures AnyContain(ms, prop) <==> exists m :: m in ms && Contains(prop, m)
    ensures AnyStart(ms, prop) <==> exists m :: m in ms && m <= prop
    ensures AnyEnd(ms, prop) <==> exists m :: m in ms && EndsWithAsTested(prop, m)
  {
    forall m | m in ms
      ensures ContainTest(prop, m) <==> Contains(prop, m)
      ensures StartTest(prop, m) <==> m <= prop
      ensures EndTest(prop, m) <==> EndsWithAsTested(prop, m)
    {
      ContainTestMeaning(prop, m);
      StartTestMeaning(prop, m);
      EndTestMeaning(prop, m);
    }
  }

  /** A list that is exactly ["*"] makes every property eligible. */
  lemma OnlyWildcardMatchesAll(propList: seq<string>, lists: PropLists, prop: string)
    requires propList == ["*"]
    ensures SatisfyPropList(propList, lists, prop)
  {
  }

  /** Otherwise a property is eligible iff (the list holds `*` or some
      positive rule matches) and no negative rule matches. */
  lemma EligibleIff(propList: seq<string>, lists: PropLists, prop: string)
    requires propList != ["*"]
    ensures SatisfyPropList(propList, lists, prop)
        <==> ("*" in propList || PositiveRule(lists, prop)) && !NegativeRule(lists, prop)
  {
    TestsMeaning(lists.contain, prop);
    TestsMeaning(lists.startWith, prop);
    TestsMeaning(lists.endWith, prop);
    TestsMeaning(lists.notContain, prop);
    TestsMeaning(lists.notStartWith, prop);
    TestsMeaning(lists.notEndWith, prop);
    OnlyWildcard(propList);
  }

  lemma OnlyWildcard(propList: seq<string>)
    ensures "*" in propList && |propList| == 1 <==> propList == ["*"]
  {
    if |propList| == 1 {
      assert propList == [propList[0]];
    }
  }

  /** A negative rule always wins over the wildcard and the positive rules. */
  lemma NegativeRuleOverrides(propList: seq<string>, lists: PropLists, prop: string)
    requires propList != ["*"] && NegativeRule(lists, prop)
    ensures !SatisfyPropList(propList, lists, prop)
  {
    EligibleIff(propList, lists, prop);
  }

  /** With no `*` and empty positive lists nothing is eligible; in particular
      an empty `propList` converts no property. */
  lemma NothingWithoutPositives(propList: seq<string>, lists: PropLists, prop: string)
    requires "*" !in propList
    requires lists.exact == [] && lists.contain == [] && lists.startWith == [] && lists.endWith == []
    ensures !SatisfyPropList(propList, lists, prop)
  {
  }

  /** `["*", "!font*"]`: `font` is a negated starts-with rule, so `width` is
      eligible and `font-size` is not. */
  lemma WildcardWithNegatedPrefix()
    ensures var lists := PropLists([], [], [], [], [], [], ["font"], []);
            SatisfyPropList(["*", "!font*"], lists, "width")
            && !SatisfyPropList(["*", "!font*"], lists, "font-size")
  {
    var lists := PropLists([], [], [], [], [], [], ["font"], []);
    assert ["*", "!font*"] != ["*"] by { assert |["*", "!font*"]| == 2; }
    StartTestMeaning("font-size", "font");
    assert "font" <= "font-size";
    StartTestMeaning("width", "font");
    assert !("font" <= "width") by { assert "width"[0] != "font"[0]; }
    EligibleIff(["*", "!font*"], lists, "width");
    EligibleIff(["*", "!font*"], lists, "font-size");
  }

  // The selector blacklist.

  /** The `selector` of a declaration's parent: a string, or some other value
      (`typeof selector !== 'string'`). */
  datatype SelectorValue = StringSelector(text: string) | OtherSelector

  /** One entry against a selector: a string entry by `indexOf`, a regular
      expression by `selector.match`, supplied as `patternMatches`. */
  predicate EntryMatches(e: BlacklistEntry, selector: string, patternMatches: (string, string) -> bool) {
    match e
    case Literal(t) => IndexOf(selector, t) != -1
    case Pattern(src) => patternMatches(src, selector)
  }

  /** `blacklist.some(...)`, stopping at the first entry that matches. */
  predicate AnyEntryMatches(blacklist: seq<BlacklistEntry>, selector: string,
                            patternMatches: (string, string) -> bool)
    ensures AnyEntryMatches(blacklist, selector, patternMatches)
        <==> exists i :: 0 <= i < |blacklist| && EntryMatches(blacklist[i], selector, patternMatches)
    decreases |blacklist|
  {
    if |blacklist| == 0 then false
    else
      var tail := blacklist[1..];
      assert forall i :: 1 <= i < |blacklist| ==> blacklist[i] == tail[i - 1];
      EntryMatches(blacklist[0], selector, patternMatches)
      || AnyEntryMatches(tail, selector, patternMatches)
  }

  /** `blacklistedSelector(blacklist, selector)`; its `undefined` for a
      non-string selector is falsy. */
  predicate BlacklistedSelector(blacklist: seq<BlacklistEntry>, selector: SelectorValue,
                                patternMatches: (string, string) -> bool)
    ensures BlacklistedSelector(blacklist, selector, patternMatches)
        <==> && selector.StringSelector?
             && exists i :: 0 <= i < |blacklist| && EntryMatches(blacklist[i], selector.text, patternMatches)
  {
    match selector
    case OtherSelector => false
    case StringSelector(text) => AnyEntryMatches(blacklist, text, patternMatches)
  }

  /** A non-string selector and an empty blacklist never blacklist. */
  lemma NotBlacklistedTrivially(blacklist: seq<BlacklistEntry>, selector: SelectorValue,
                                patternMatches: (string, string) -> bool)
    requires selector.OtherSelector? || blacklist == []
    ensures !BlacklistedSelector(blacklist, selector, patternMatches)
  {
  }

  /** With string entries only, a selector is blacklisted iff one of them is
      a substring of it. */
  lemma StringEntriesMatchBySubstring(blacklist: seq<BlacklistEntry>, text: string,
                                      patternMatches: (string, string) -> bool)
    requires forall i :: 0 <= i < |blacklist| ==> blacklist[i].Literal?
    ensures BlacklistedSelector(blacklist, StringSelector(text), patternMatches)
        <==> exists i :: 0 <= i < |blacklist| && Contains(text, blacklist[i].text)
  {
    if BlacklistedSelector(blacklist, StringSelector(text), patternMatches) {
      var i :| 0 <= i < |blacklist| && EntryMatches(blacklist[i], text, patternMatches);
      assert Contains(text, blacklist[i].text);
    }
  }

  /** The order (and repetition) of entries does not matter, only which
      entries there are. */
  lemma BlacklistOrderIrrelevant(a: seq<BlacklistEntry>, b: seq<BlacklistEntry>, selector: SelectorValue,
                                 patternMatches: (string, string) -> bool)
    requires forall e :: e in a <==> e in b
    ensures BlacklistedSelector(a, selector, patternMatches) == BlacklistedSelector(b, selector, patternMatches)
  {
    if selector.StringSelector? {
      var text := selector.text;
      if AnyEntryMatches(a, text, patternMatches) {
        var i :| 0 <= i < |a| && EntryMatches(a[i], text, patternMatches);
        assert a[i] in b;
        var j :| 0 <= j < |b| && b[j] == a[i];
      }
      if AnyEntryMatches(b, text, patternMatches) {
        var j :| 0 <= j < |b| && EntryMatches(b[j], text, patternMatches);
        assert b[j] in a;
        var i :| 0 <= i < |a| && a[i] == b[j];
      }
    }
  }

  /** `[".ignore"]` blacklists `.ignore-me` but not `.keep`. */
  lemma IgnoreExample(patternMatches: (string, string) -> bool)
    ensures BlacklistedSelector([Literal(".ignore")], StringSelector(".ignore-me"), patternMatches)
    ensures !BlacklistedSelector([Literal(".ignore")], StringSelector(".keep"), patternMatches)
  {
    StringEntriesMatchBySubstring([Literal(".ignore")], ".ignore-me", patternMatches);
    assert OccursAt(".ignore-me", ".ignore", 0) by {
      assert ".ignore-me"[0..7] == ".ignore";
    }
    StringEntriesMatchBySubstring([Literal(".ignore")], ".keep", patternMatches);
  }
}
