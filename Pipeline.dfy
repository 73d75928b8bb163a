/** The retrieval-augmented stage of the demo: retrieve a context for a fixed
    query, then build the grounded prompt around it and the user's question.
    The model call that consumes the prompt is not part of this module. */
module Pipeline {
  import opened Text
  import opened Documents
  import opened Retriever
  import opened Prompt

  const DemoQuery: string := "Mebrie Awoke"
  const UserQuestion: string := "whoe is mebrie?"

  /** The first content is free of line breaks, checked one literal piece at a time. */
  lemma MebrieHasNoLineBreak()
    ensures NoLineBreak(MebrieContent)
  {
    var text := "I am Mebrie Awoke, a third-year";
    assert NoLineBreak(text);
    var piece := " Information Systems student at Addis";
    assert NoLineBreak(piece);
    LineBreakFreeConcat(text, piece);
    text := text + piece;
    piece := " Ababa University (AAU). I am passionate";
    assert NoLineBreak(piece);
    LineBreakFreeConcat(text, piece);
    text := text + piece;
    piece := " about Machine Learning and have hands-on";
    assert NoLineBreak(piece);
    LineBreakFreeConcat(text, piece);
    text := text + piece;
    piece := " experience training Convolutional Neural";
    assert NoLineBreak(piece);
    LineBreakFreeConcat(text, piece);
    text := text + piece;
    piece := " Network (CNN) models. I am continuously";
    assert NoLineBreak(piece);
    LineBreakFreeConcat(text, piece);
    text := text + piece;
    piece := " developing my skills and exploring";
    assert NoLineBreak(piece);
    LineBreakFreeConcat(text, piece);
    text := text + piece;
    piece := " new advancements in AI and";
    assert NoLineBreak(piece);
    LineBreakFreeConcat(text, piece);
    text := text + piece;
    piece := " data-driven technologies.";
    assert NoLineBreak(piece);
    LineBreakFreeConcat(text, piece);
    text := text + piece;
    assert text == MebrieContent;
  }

  /** The second content is free of line breaks, checked one literal piece at a time. */
  lemma EducationHasNoLineBreak()
    ensures NoLineBreak(EducationContent)
  {
    var text := "Ethiopia has many universities including";
    assert NoLineBreak(text);
    var piece := " Addis Ababa University, ";
    assert NoLineBreak(piece);
    LineBreakFreeConcat(text, piece);
    text := text + piece;
    piece := "Jimma University, and Mekelle University.";
    assert NoLineBreak(piece);
    LineBreakFreeConcat(text, piece);
    text := text + piece;
    assert text == EducationContent;
  }

  /** Neither the sentinel nor any stored content contains a line break. */
  lemma StoredTextsHaveNoLineBreak()
    ensures NoLineBreak(NotFound)
    ensures forall k :: 0 <= k < |Store| ==> NoLineBreak(Store[k].content)
  {
    MebrieHasNoLineBreak();
    EducationHasNoLineBreak();
  }

  /** Whatever the query, the retrieved context and any question read back
      exactly from the grounded prompt built from them. */
  lemma RetrievedContextRoundTrips(query: string, question: string)
    ensures ParseGrounded(BuildGrounded(Retrieve(Store, query), question)) == Some((Retrieve(Store, query), question))
  {
    StoredTextsHaveNoLineBreak();
    NoLineBreakSeparable(Retrieve(Store, query));
    ParseBuildRoundTrip(Retrieve(Store, query), question);
  }

  /** The prompt of the RAG stage: it carries the first record's content as its
      context and the user's question, and both read back from it. */
  method RagPrompt() returns (prompt: string)
    ensures prompt == BuildGrounded(MebrieContent, UserQuestion)
    ensures ParseGrounded(prompt) == Some((MebrieContent, UserQuestion))
  {
    var context := RetrieveDoc(DemoQuery);
    RetrieveMebrie();
    prompt := BuildGrounded(context, UserQuestion);
    RetrievedContextRoundTrips(DemoQuery, UserQuestion);
  }
}
