/** The grounded prompt: a fixed instruction, then the retrieved context, then
    the question, each in a labelled block. */
module Prompt {
  import opened Text

  /** The opening instruction: answer only from the context, otherwise say
      "I don't know". */
  const Instruction: string :=
    "\nAnswer the question " + OnlyContext + " below.\n"
    + "If the answer is not in the context, " + DontKnowReply + ".\n\n"
  const OnlyContext: string := "using ONLY the context"
  const DontKnowReply: string := "say \"I don't know\""
  const ContextLabel: string := "Context:\n"
  const QuestionLabel: string := "\n\nQuestion:\n"
  const Closing: string := "\n"

  /** Everything that comes before the context. */
  const Header: string := Instruction + ContextLabel

  /** The RAG prompt template: the pieces appear verbatim and in this order,
      with nothing between them. */
  function BuildGrounded(context: string, question: string): (p: string)
    ensures |p| == |Header| + |context| + |QuestionLabel| + |question| + |Closing|
    ensures OccursAt(Instruction, p, 0)
    ensures OccursAt(ContextLabel, p, |Instruction|)
    ensures OccursAt(context, p, |Header|)
    ensures OccursAt(QuestionLabel, p, |Header| + |context|)
    ensures OccursAt(question, p, |Header| + |context| + |QuestionLabel|)
    ensures OccursAt(Closing, p, |p| - |Closing|)
  {
    var p := Header + context + QuestionLabel + question + Closing;
    assert p[..|Header|] == Header;
    assert Header[..|Instruction|] == Instruction;
    assert p[|Header| + |context|..][..|QuestionLabel|] == QuestionLabel;
    p
  }

  /** Reads a grounded prompt back into its context and question: strips the
      header and the closing newline, then splits at the first question label. */
  function ParseGrounded(p: string): (r: Option<(string, string)>)
    ensures r.Some? ==> BuildGrounded(r.value.0, r.value.1) == p && Separable(r.value.0)
  {
    if |p| < |Header| + |Closing| then None
    else if p[..|Header|] != Header || p[|p| - |Closing|..] != Closing then None
    else
      var inner := p[|Header|..|p| - |Closing|];
      match SplitAtLabel(inner)
      case None => None
      case Some((context, question)) =>
        Reassemble(p, context, question);
        Some((context, question))
  }

  /** A prompt that starts with the header, ends with the closing line break
      and has `context`, the question label and `question` in between is the
      one built from them. */
  lemma Reassemble(p: string, context: string, question: string)
    requires |Header| + |Closing| <= |p|
    requires p[..|Header|] == Header && p[|p| - |Closing|..] == Closing
    requires p[|Header|..|p| - |Closing|] == context + QuestionLabel + question
    ensures BuildGrounded(context, question) == p
  {
    assert p == p[..|Header|] + p[|Header|..|p| - |Closing|] + p[|p| - |Closing|..];
  }

  /** Splits the body of a prompt at the first question label. */
  function SplitAtLabel(inner: string): (r: Option<(string, string)>)
    ensures r.Some? ==> inner == r.value.0 + QuestionLabel + r.value.1
    ensures r.Some? ==> Separable(r.value.0)
    ensures r.None? <==> !Contains(QuestionLabel, inner)
  {
    match Find(QuestionLabel, inner)
    case None => None
    case Some(i) =>
      var context, question := inner[..i], inner[i + |QuestionLabel|..];
      assert inner == context + QuestionLabel + question;
      var prefix := context + QuestionLabel[..|QuestionLabel| - 1];
      assert inner[..|prefix|] == prefix;
      forall j | 0 <= j <= |prefix| - |QuestionLabel|
        ensures !OccursAt(QuestionLabel, prefix, j)
      {
        assert j < i && !OccursAt(QuestionLabel, inner, j);
        assert j + |QuestionLabel| <= |prefix|;
        assert inner[..|prefix|][j..j + |QuestionLabel|] == inner[j..j + |QuestionLabel|];
      }
      Some((context, question))
  }

  /** The question label does not occur in `context` followed by all but the
      last character of the label, so the first label after the header is the
      one the template put there. */
  predicate Separable(context: string) {
    !Contains(QuestionLabel, context + QuestionLabel[..|QuestionLabel| - 1])
  }

  /** A prompt built from `context` and `question` reads back into exactly
      them if and only if the context is separable. */
  lemma ParseBuildRoundTrip(context: string, question: string)
    ensures ParseGrounded(BuildGrounded(context, question)) == Some((context, question)) <==> Separable(context)
  {
    ParseOfBuild(context, question);
    SplitRoundTrip(context, question);
  }

  lemma ParseOfBuild(context: string, question: string)
    ensures ParseGrounded(BuildGrounded(context, question)) == SplitAtLabel(context + QuestionLabel + question)
  {
    var inner := context + QuestionLabel + question;
    assert BuildGrounded(context, question) == Header + inner + Closing;
    ParseOfFramed(inner);
  }

  /** Reading back a body framed by the header and the closing line break is
      splitting that body. */
  lemma ParseOfFramed(inner: string)
    ensures ParseGrounded(Header + inner + Closing) == SplitAtLabel(inner)
  {
    var p := Header + inner + Closing;
    assert p[..|Header|] == Header;
    assert p[|p| - |Closing|..] == Closing;
    assert p[|Header|..|p| - |Closing|] == inner;
  }

  lemma SplitRoundTrip(context: string, question: string)
    ensures SplitAtLabel(context + QuestionLabel + question) == Some((context, question)) <==> Separable(context)
  {
    var inner := context + QuestionLabel + question;
    OccursBetween(context, QuestionLabel, question);
    var prefix := context + QuestionLabel[..|QuestionLabel| - 1];
    assert inner[..|prefix|] == prefix;
    var i := Find(QuestionLabel, inner).value;
    assert i <= |context|;
    if Separable(context) {
      if i < |context| {
        assert inner[..|prefix|][i..i + |QuestionLabel|] == inner[i..i + |QuestionLabel|];
        assert OccursAt(QuestionLabel, prefix, i);
      }
      assert inner[i + |QuestionLabel|..] == question;
    } else {
      var j :| 0 <= j <= |prefix| - |QuestionLabel| && OccursAt(QuestionLabel, prefix, j);
      assert inner[..|prefix|][j..j + |QuestionLabel|] == inner[j..j + |QuestionLabel|];
      assert OccursAt(QuestionLabel, inner, j);
    }
  }

  /** Among separable contexts, the prompt determines the context and the
      question. */
  lemma BuildGroundedInjective(c1: string, q1: string, c2: string, q2: string)
    requires Separable(c1) && Separable(c2)
    requires BuildGrounded(c1, q1) == BuildGrounded(c2, q2)
    ensures c1 == c2 && q1 == q2
  {
    ParseBuildRoundTrip(c1, q1);
    ParseBuildRoundTrip(c2, q2);
  }

  /** Two different context/question pairs that give the same prompt: the
      template alone does not delimit a context containing the question label. */
  lemma AmbiguousPrompt()
    ensures BuildGrounded("a", "b" + QuestionLabel + "c") == BuildGrounded("a" + QuestionLabel + "b", "c")
    ensures !Separable("a" + QuestionLabel + "b")
  {
    var c := "a" + QuestionLabel + "b";
    OccursBetween("a", QuestionLabel, "b" + QuestionLabel[..|QuestionLabel| - 1]);
    assert c + QuestionLabel[..|QuestionLabel| - 1] == "a" + QuestionLabel + ("b" + QuestionLabel[..|QuestionLabel| - 1]);
  }

  /** A context with no line break in it is always separable. */
  lemma NoLineBreakSeparable(context: string)
    requires NoLineBreak(context)
    ensures Separable(context)
  {
    var prefix := context + QuestionLabel[..|QuestionLabel| - 1];
    forall j | 0 <= j <= |prefix| - |QuestionLabel|
      ensures !OccursAt(QuestionLabel, prefix, j)
    {
      assert prefix[j..j + |QuestionLabel|][0] == prefix[j];
    }
  }

  /** The instruction asks for answers from the context only and names the
      fixed reply for a missing answer. */
  lemma InstructionPhrases()
    ensures Contains(OnlyContext, Instruction)
    ensures Contains(DontKnowReply, Instruction)
  {
    var a := "\nAnswer the question ";
    var b := " below.\n" + "If the answer is not in the context, ";
    var c := ".\n\n";
    assert Instruction == a + OnlyContext + (b + DontKnowReply + c);
    OccursBetween(a, OnlyContext, b + DontKnowReply + c);
    assert Instruction == (a + OnlyContext + b) + DontKnowReply + c;
    OccursBetween(a + OnlyContext + b, DontKnowReply, c);
  }
}
