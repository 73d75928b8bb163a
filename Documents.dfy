/** The document store: a fixed, ordered list of records, each with a title and
    a content body. It is built once and never changed. */
module Documents {

  datatype Doc = Doc(title: string, content: string)

  /** What the retriever returns when no title matches. */
  const NotFound: string := "No document found."

  const MebrieTitle: string := "Mebrie Awoke"
  // The contents are the source's literals, each cut once more at a space so
  // that no single literal is long.
  const MebrieContent: string :=
    "I am Mebrie Awoke, a third-year" + " Information Systems student at Addis"
    + " Ababa University (AAU). I am passionate" + " about Machine Learning and have hands-on"
    + " experience training Convolutional Neural" + " Network (CNN) models. I am continuously"
    + " developing my skills and exploring" + " new advancements in AI and" + " data-driven technologies."

  const EducationTitle: string := "Ethiopian Higher Education"
  const EducationContent: string :=
    "Ethiopia has many universities including" + " Addis Ababa University, "
    + "Jimma University, and Mekelle University."

  /** The store, in the order the retriever scans it. */
  const Store: seq<Doc> := [Doc(MebrieTitle, MebrieContent), Doc(EducationTitle, EducationContent)]

  /** The store holds the two records in the source's order, and each content
      is the source's own literals, joined as Python joins adjacent literals. */
  lemma StoreInSourceOrder()
    ensures |Store| == 2
    ensures Store[0].title == "Mebrie Awoke" && Store[1].title == "Ethiopian Higher Education"
    ensures Store[0].content ==
      "I am Mebrie Awoke, a third-year Information Systems student at Addis"
      + " Ababa University (AAU). I am passionate about Machine Learning and have hands-on"
      + " experience training Convolutional Neural Network (CNN) models. I am continuously"
      + " developing my skills and exploring new advancements in AI and data-driven technologies."
    ensures Store[1].content ==
      "Ethiopia has many universities including Addis Ababa University, "
      + "Jimma University, and Mekelle University."
  {
    MebrieSourceLiterals();
    EducationSourceLiterals();
  }

  /** The first content, regrouped into the source's four literals. */
  lemma MebrieSourceLiterals()
    ensures MebrieContent ==
      "I am Mebrie Awoke, a third-year Information Systems student at Addis"
      + " Ababa University (AAU). I am passionate about Machine Learning and have hands-on"
      + " experience training Convolutional Neural Network (CNN) models. I am continuously"
      + " developing my skills and exploring new advancements in AI and data-driven technologies."
  {
    RegroupPairs("I am Mebrie Awoke, a third-year", " Information Systems student at Addis",
                 " Ababa University (AAU). I am passionate", " about Machine Learning and have hands-on",
                 " experience training Convolutional Neural", " Network (CNN) models. I am continuously",
                 " developing my skills and exploring", " new advancements in AI and", " data-driven technologies.");
    MebrieFirstLiteral();
    MebrieSecondLiteral();
    MebrieThirdLiteral();
    MebrieFourthLiteral();
  }

  /** The first source literal of the first content is two of the model's pieces. */
  lemma MebrieFirstLiteral()
    ensures "I am Mebrie Awoke, a third-year" + " Information Systems student at Addis"
         == "I am Mebrie Awoke, a third-year Information Systems student at Addis"
  {
  }

  /** The second source literal of the first content is two of the model's pieces. */
  lemma MebrieSecondLiteral()
    ensures " Ababa University (AAU). I am passionate" + " about Machine Learning and have hands-on"
         == " Ababa University (AAU). I am passionate about Machine Learning and have hands-on"
  {
  }

  /** The third source literal of the first content is two of the model's pieces. */
  lemma MebrieThirdLiteral()
    ensures " experience training Convolutional Neural" + " Network (CNN) models. I am continuously"
         == " experience training Convolutional Neural Network (CNN) models. I am continuously"
  {
  }

  /** The fourth source literal of the first content is three of the model's
      pieces: the first two joined, then the third. */
  lemma MebrieFourthLiteral()
    ensures (" developing my skills and exploring" + " new advancements in AI and") + " data-driven technologies."
         == " developing my skills and exploring new advancements in AI and data-driven technologies."
  {
    MebrieFourthLiteralStart();
    MebrieFourthLiteralEnd();
  }

  /** The first two pieces of the fourth source literal. */
  lemma MebrieFourthLiteralStart()
    ensures " developing my skills and exploring" + " new advancements in AI and"
         == " developing my skills and exploring new advancements in AI and"
  {
  }

  /** The third piece completes the fourth source literal. */
  lemma MebrieFourthLiteralEnd()
    ensures " developing my skills and exploring new advancements in AI and" + " data-driven technologies."
         == " developing my skills and exploring new advancements in AI and data-driven technologies."
  {
  }

  /** Nine pieces joined in a row are the same text as the pairs (and the last
      triple) joined first. */
  lemma RegroupPairs(m1: string, m2: string, m3: string, m4: string, m5: string,
                     m6: string, m7: string, m8: string, m9: string)
    ensures m1 + m2 + m3 + m4 + m5 + m6 + m7 + m8 + m9
         == (m1 + m2) + (m3 + m4) + (m5 + m6) + ((m7 + m8) + m9)
  {
  }

  /** The second content, regrouped into the source's two literals. */
  lemma EducationSourceLiterals()
    ensures EducationContent ==
      "Ethiopia has many universities including Addis Ababa University, "
      + "Jimma University, and Mekelle University."
  {
    var e1, e2 := "Ethiopia has many universities including", " Addis Ababa University, ";
    assert e1 + e2 == "Ethiopia has many universities including Addis Ababa University, ";
  }

  /** The sentinel is not the content of any stored record. */
  lemma SentinelIsNoStoredContent()
    ensures forall k :: 0 <= k < |Store| ==> Store[k].content != NotFound
  {
    assert |NotFound| < |MebrieContent| && |NotFound| < |EducationContent|;
  }
}
