/** Which Calendly link a round gets: an ordered keyword table over the
    lower-cased round name, first match wins. */
module Links {
  import opened Text
  import opened Optional

  /** `cell || ""`: a missing (or empty) link cell reads as the empty string. */
  function OrEmpty(cell: Option<string>): string {
    if cell.Some? then cell.value else ""
  }

  /** The three link columns of a master record, and "no link". */
  datatype LinkKind = HrLink | TechLink | HiringManagerLink | NoLink

  /** A rule fires when the round name contains any of its keywords. */
  datatype Rule = Rule(keywords: seq<string>, kind: LinkKind)

  /** The rules in the order the script tests them. */
  const RULES: seq<Rule> := [
    Rule(["hr"], HrLink),
    Rule(["tech"], TechLink),
    Rule(["hiring manager", "hm"], HiringManagerLink)
  ]

  predicate AnyKeyword(keywords: seq<string>, lower: string) {
    exists k :: 0 <= k < |keywords| && Contains(lower, keywords[k])
  }

  /** Index of the first rule that fires on `lower`, `|rules|` when none does. */
  function FirstMatchIndex(rules: seq<Rule>, lower: string): (i: nat)
    ensures i <= |rules|
    ensures forall j :: 0 <= j < i ==> !AnyKeyword(rules[j].keywords, lower)
    ensures i < |rules| ==> AnyKeyword(rules[i].keywords, lower)
  {
    if rules == [] then 0
    else if AnyKeyword(rules[0].keywords, lower) then 0
    else 1 + FirstMatchIndex(rules[1..], lower)
  }

  /** The table-driven reading of the rules: the kind of the first rule that
      fires, or NoLink. */
  function FirstMatch(rules: seq<Rule>, lower: string): LinkKind {
    var i := FirstMatchIndex(rules, lower);
    if i < |rules| then rules[i].kind else NoLink
  }

  /** The if / else-if chain of the splitter, on an already lower-cased name. */
  function Classify(lower: string): LinkKind {
    if Contains(lower, "hr") then HrLink
    else if Contains(lower, "tech") then TechLink
    else if Contains(lower, "hiring manager") || Contains(lower, "hm") then HiringManagerLink
    else NoLink
  }

  /** The chain is exactly first-match over RULES. */
  lemma ClassifyIsFirstMatch(lower: string)
    ensures Classify(lower) == FirstMatch(RULES, lower)
  {
    var hr, tech, hm := RULES[0], RULES[1], RULES[2];
    assert RULES[1..] == [tech, hm] && [tech, hm][1..] == [hm] && [hm][1..] == [];
    assert AnyKeyword(hr.keywords, lower) <==> Contains(lower, "hr") by {
      assert hr.keywords[0] == "hr";
    }
    assert AnyKeyword(tech.keywords, lower) <==> Contains(lower, "tech") by {
      assert tech.keywords[0] == "tech";
    }
    assert AnyKeyword(hm.keywords, lower)
        <==> Contains(lower, "hiring manager") || Contains(lower, "hm") by {
      assert hm.keywords[0] == "hiring manager" && hm.keywords[1] == "hm";
    }
    var i2 := FirstMatchIndex([hm], lower);
    assert i2 == if AnyKeyword(hm.keywords, lower) then 0 else 1;
    var i1 := FirstMatchIndex([tech, hm], lower);
    assert i1 == if AnyKeyword(tech.keywords, lower) then 0 else 1 + i2;
    var i0 := FirstMatchIndex(RULES, lower);
    assert i0 == if AnyKeyword(hr.keywords, lower) then 0 else 1 + i1;
  }

  /** The Calendly link written into a round record for `roundName`. */
  function ResolveLink(roundName: string, hr: Option<string>, tech: Option<string>,
                       hiringManager: Option<string>): (link: string)
    ensures link == "" || link == OrEmpty(hr) || link == OrEmpty(tech) || link == OrEmpty(hiringManager)
  {
    match Classify(ToLower(roundName))
    case HrLink => OrEmpty(hr)
    case TechLink => OrEmpty(tech)
    case HiringManagerLink => OrEmpty(hiringManager)
    case NoLink => ""
  }

  /** The link is the column named by the first rule that fires on the
      lower-cased round name; when no rule fires it is empty. */
  lemma ResolveLinkFirstMatch(roundName: string, hr: Option<string>, tech: Option<string>,
                              hiringManager: Option<string>)
    ensures var lower := ToLower(roundName);
            var i := FirstMatchIndex(RULES, lower);
            ResolveLink(roundName, hr, tech, hiringManager)
              == if i == 0 then OrEmpty(hr)
                 else if i == 1 then OrEmpty(tech)
                 else if i == 2 then OrEmpty(hiringManager)
                 else ""
  {
    var lower := ToLower(roundName);
    ClassifyIsFirstMatch(lower);
  }

  /** With every link column empty, every round resolves to "". */
  lemma MissingLinksResolveEmpty(roundName: string)
    ensures ResolveLink(roundName, None, None, None) == ""
  {
  }

  /** A name that lacks one of a keyword's letters does not contain it. */
  lemma {:induction false} MissingLetter(lower: string, keyword: string, k: nat)
    requires k < |keyword| && keyword[k] !in lower
    ensures !Contains(lower, keyword)
  {
    if lower != [] {
      MissingLetter(lower[1..], keyword, k);
    }
  }

  /** A name whose only occurrence of a keyword's first letter is at its
      start, followed by another letter, does not contain the keyword. */
  lemma OnlyFalseStart(lower: string, keyword: string)
    requires 2 <= |keyword| <= |lower| && lower[1] != keyword[1]
    requires keyword[0] !in lower[1..]
    ensures !Contains(lower, keyword)
  {
    MissingLetter(lower[1..], keyword, 0);
  }

  // Example rounds, one for each rule, and one that matches no rule.

  lemma HrRoundClassified()
    ensures Classify("hr round") == HrLink
  {
  }

  lemma TechnicalClassified()
    ensures Classify("technical") == TechLink
  {
    assert 'r' !in "technical";
    MissingLetter("technical", "hr", 1);
  }

  lemma HiringManagerClassified()
    ensures Classify("hiring manager") == HiringManagerLink
  {
    assert 't' !in "hiring manager" && 'h' !in "hiring manager"[1..];
    OnlyFalseStart("hiring manager", "hr");
    MissingLetter("hiring manager", "tech", 0);
  }

  lemma HmRoundClassified()
    ensures Classify("hm round") == HiringManagerLink
  {
    assert 't' !in "hm round" && 'h' !in "hm round"[1..];
    OnlyFalseStart("hm round", "hr");
    MissingLetter("hm round", "tech", 0);
  }

  lemma CultureFitClassified()
    ensures Classify("culture fit") == NoLink
  {
    assert 'h' !in "culture fit";
    MissingLetter("culture fit", "hr", 0);
    MissingLetter("culture fit", "tech", 3);
    MissingLetter("culture fit", "hiring manager", 0);
    MissingLetter("culture fit", "hm", 0);
  }

  lemma ResolveLinkExamples(hr: Option<string>, tech: Option<string>, hiringManager: Option<string>)
    ensures ResolveLink("HR Round", hr, tech, hiringManager) == OrEmpty(hr)
    ensures ResolveLink("Technical", hr, tech, hiringManager) == OrEmpty(tech)
    ensures ResolveLink("Hiring Manager", hr, tech, hiringManager) == OrEmpty(hiringManager)
    ensures ResolveLink("HM Round", hr, tech, hiringManager) == OrEmpty(hiringManager)
    ensures ResolveLink("Culture Fit", hr, tech, hiringManager) == ""
  {
    assert ToLower("HR Round") == "hr round";
    assert ToLower("Technical") == "technical";
    assert ToLower("Hiring Manager") == "hiring manager";
    assert ToLower("HM Round") == "hm round";
    assert ToLower("Culture Fit") == "culture fit";
    HrRoundClassified();
    TechnicalClassified();
    HiringManagerClassified();
    HmRoundClassified();
    CultureFitClassified();
  }

  /** Keywords match anywhere in the name, inside words too: "Tech
      Walkthrough" holds "hr" in "walkthrough", so it gets the HR link
      although it also names "tech". */
  lemma KeywordInsideWord(hr: Option<string>, tech: Option<string>, hiringManager: Option<string>)
    ensures ResolveLink("Tech Walkthrough", hr, tech, hiringManager) == OrEmpty(hr)
  {
    var lower := "tech walkthrough";
    assert ToLower("Tech Walkthrough") == lower;
    assert OccursAt(lower, "hr", 10);
    ContainsMeaning(lower, "hr");
  }
}
