/**
 * Worked prompts: the first starter prompt the chat page offers, run through
 * the classification and the section selection, and two prompts showing that
 * a keyword is found anywhere, even in the middle of another word.
 */
module ChatExamples {
  import opened Text
  import opened Chat

  /** The upper-case form of a lower-case ASCII letter. */
  function UpperOf(c: char): char
    requires 'a' <= c <= 'z'
  {
    (c as int - 32) as char
  }

  /** A word with a letter the text lacks does not occur in the text. */
  lemma MissingLetter(text: string, word: string, c: char)
    requires c in word && c !in text
    ensures !Contains(text, word)
  {
    var j :| 0 <= j < |word| && word[j] == c;
    forall i
      ensures !OccursAt(text, word, i)
    {
      if 0 <= i && i + |word| <= |text| {
        assert text[i..i + |word|][j] == text[i + j];
      }
    }
    ContainsIff(text, word);
  }

  /** A lower-case letter missing from a text in both cases is missing from
      its lower-case form. */
  lemma MissingLower(text: string, c: char)
    requires 'a' <= c <= 'z' && c !in text && UpperOf(c) !in text
    ensures c !in Lower(text)
  {
    forall i | 0 <= i < |text|
      ensures Lower(text)[i] != c
    {
      assert text[i] != c && text[i] != UpperOf(c);
    }
  }

  /** A word lacks every keyword of a group when, for each keyword, it lacks
      one of the keyword's letters (`missing[j]` for keyword `j`) in both
      cases. */
  lemma WordLacks(word: string, keywords: seq<string>, missing: string)
    requires |missing| == |keywords|
    requires forall j :: 0 <= j < |keywords| ==>
      'a' <= missing[j] <= 'z' && missing[j] in keywords[j] &&
      missing[j] !in word && UpperOf(missing[j]) !in word
    ensures forall k :: k in keywords ==> !Contains(Lower(word), k)
  {
    forall k | k in keywords
      ensures !Contains(Lower(word), k)
    {
      var j :| 0 <= j < |keywords| && keywords[j] == k;
      MissingLower(word, missing[j]);
      MissingLetter(Lower(word), k, missing[j]);
    }
  }

  /** A keyword group is absent from a text of words when no word contains
      any of its keywords. */
  lemma NotMentioned(words: seq<string>, keywords: seq<string>)
    requires |words| > 0
    requires forall k :: k in keywords ==> ' ' !in k
    requires forall i :: 0 <= i < |words| ==>
      forall k :: k in keywords ==> !Contains(Lower(words[i]), k)
    ensures !Mentions(Join(words, " "), keywords)
  {
    forall k | k in keywords
      ensures !Contains(Lower(Join(words, " ")), k)
    {
      ContainsInWords(words, k);
    }
  }

  /** A keyword inside one word of a text is a mention of its group. */
  lemma MentionedIn(words: seq<string>, keywords: seq<string>, i: nat, k: string)
    requires i < |words| && k in keywords && ' ' !in k
    requires Contains(Lower(words[i]), k)
    ensures Mentions(Join(words, " "), keywords)
  {
    ContainsInWords(words, k);
  }

  const KyotoWords: seq<string> := ["Plan", "a", "weekend", "trip", "to", "Kyoto"]
  lemma KyotoLacksTips()
    ensures forall i :: 0 <= i < |KyotoWords| ==>
      forall k :: k in TipsKeywords ==> !Contains(Lower(KyotoWords[i]), k)
  {
    forall i | 0 <= i < |KyotoWords|
      ensures forall k :: k in TipsKeywords ==> !Contains(Lower(KyotoWords[i]), k)
    {
      if i == 0 {
        WordLacks("Plan", TipsKeywords, "tr");
      } else if i == 1 {
        WordLacks("a", TipsKeywords, "tr");
      } else if i == 2 {
        WordLacks("weekend", TipsKeywords, "tr");
      } else if i == 3 {
        WordLacks("trip", TipsKeywords, "se");
      } else if i == 4 {
        WordLacks("to", TipsKeywords, "ir");
      } else {
        WordLacks("Kyoto", TipsKeywords, "ir");
      }
    }
  }

  lemma KyotoLacksResource()
    ensures forall i :: 0 <= i < |KyotoWords| ==>
      forall k :: k in ResourceKeywords ==> !Contains(Lower(KyotoWords[i]), k)
  {
    forall i | 0 <= i < |KyotoWords|
      ensures forall k :: k in ResourceKeywords ==> !Contains(Lower(KyotoWords[i]), k)
    {
      if i == 0 {
        WordLacks("Plan", ResourceKeywords, "rts");
      } else if i == 1 {
        WordLacks("a", ResourceKeywords, "rtp");
      } else if i == 2 {
        WordLacks("weekend", ResourceKeywords, "rta");
      } else if i == 3 {
        WordLacks("trip", ResourceKeywords, "eoa");
      } else if i == 4 {
        WordLacks("to", ResourceKeywords, "rla");
      } else {
        WordLacks("Kyoto", ResourceKeywords, "rla");
      }
    }
  }

  /** The words of the starter prompt, joined by single spaces, give the prompt. */
  lemma KyotoJoin()
    ensures Join(KyotoWords, " ") == "Plan a weekend trip to Kyoto"
  {
  }

  /** The prompt mentions a trip ... */
  lemma KyotoMentionsTrip()
    ensures Mentions(Join(KyotoWords, " "), TravelKeywords)
  {
    assert KyotoWords[3] == "trip" && Lower("trip") == "trip";
    assert Contains("trip", "trip");
    MentionedIn(KyotoWords, TravelKeywords, 3, "trip");
  }

  /** ... and a plan ... */
  lemma KyotoMentionsPlan()
    ensures Mentions(Join(KyotoWords, " "), PlanKeywords)
  {
    assert KyotoWords[0] == "Plan" && Lower("Plan") == "plan";
    assert Contains("plan", "plan");
    MentionedIn(KyotoWords, PlanKeywords, 0, "plan");
  }

  /** ... but no tips ... */
  lemma KyotoMentionsNoTips()
    ensures !Mentions(Join(KyotoWords, " "), TipsKeywords)
  {
    KyotoLacksTips();
    NotMentioned(KyotoWords, TipsKeywords);
  }

  /** ... and no resources. */
  lemma KyotoMentionsNoResources()
    ensures !Mentions(Join(KyotoWords, " "), ResourceKeywords)
  {
    KyotoLacksResource();
    NotMentioned(KyotoWords, ResourceKeywords);
  }

  /** "Plan a weekend trip to Kyoto" is a travel prompt ... */
  lemma KyotoCategory()
    ensures Categorize(Join(KyotoWords, " ")) == Travel
  {
    KyotoMentionsTrip();
    CategorizePriority(Join(KyotoWords, " "));
  }

  /** ... and only the timeline section is offered for it. */
  lemma KyotoSections()
    ensures Sections(Join(KyotoWords, " ")) == [TimelineSection]
  {
    KyotoMentionsPlan();
    KyotoMentionsNoTips();
    KyotoMentionsNoResources();
    SelectedUnfold(Join(KyotoWords, " "));
  }

  /** "stripe" contains "trip" and "planet" contains "plan". */
  lemma InsideWords()
    ensures Categorize("stripe") == Travel
    ensures TimelineSection in Sections("planet")
  {
    assert Contains(Lower("stripe"), "trip");
    assert Contains(Lower("planet"), "plan");
    CategorizePriority("stripe");
    SelectedUnfold("planet");
  }
}
