/** The model-based half of the sufficiency gate (`ask_if_relevant_enough`)
    and the generator over local context (`generate_answer`). The language
    model is an oracle from the rendered prompt to the reply text. */
module Relevance {
  import opened Text

  /** The relevance prompt with the question and the context in place. */
  function RelevancePrompt(question: string, context: string): string {
    "Konu: Liderlik Koçluğu\n"
    + "Soru: " + question + "\n"
    + "Bilgi: " + context + "\n\n"
    + RelevanceInstructions
  }
  /** The instructions that close the relevance prompt: answer 'HAYIR' when
      the topic is not leadership coaching or the information does not help,
      'EVET' when it does, and nothing else. */
  const RelevanceInstructions: string := "Konu liderlik veya Liderlik koçluğu değilse veya bilgiyle en azından makul bir bağ kurulamıyorsa sadece 'HAYIR' yaz.\n"
    + "Eğer liderlik koçluğu ile ilgiliyse veya bilgi soruya biraz bile bir şekilde yardımcı oluyorsa sadece 'EVET' yaz.\n"
    + "Başka hiçbir şey yazma."

  /** The sentinel the model answers with when the context is relevant. */
  const Affirmative: string := "evet"

  /** `reply.strip().lower() == "evet"`. */
  predicate IsAffirmative(reply: string) {
    Lower(Strip(reply)) == Affirmative
  }

  /** The four-letter spellings of "evet" in any mix of upper and lower case. */
  predicate IsEvetSpelling(t: string) {
    && |t| == 4
    && (t[0] == 'e' || t[0] == 'E')
    && (t[1] == 'v' || t[1] == 'V')
    && (t[2] == 'e' || t[2] == 'E')
    && (t[3] == 't' || t[3] == 'T')
  }

  /** The reply counts as "relevant" exactly when, once the surrounding
      whitespace is dropped, it is "evet" in some letter case. Every other
      reply, "hayır" and the empty reply included, counts as "not relevant". */
  lemma AffirmativeIff(reply: string)
    ensures IsAffirmative(reply) <==> IsEvetSpelling(Strip(reply))
  {
    var t := Strip(reply);
    if IsEvetSpelling(t) {
      assert Lower(t) == Affirmative by {
        assert |Lower(t)| == 4;
        forall k | 0 <= k < 4 ensures Lower(t)[k] == Affirmative[k] {
          assert Lower(t)[k] == LowerChar(t[k]);
        }
      }
    }
    if IsAffirmative(reply) {
      assert |t| == 4;
      assert LowerChar(t[0]) == 'e' && LowerChar(t[1]) == 'v' && LowerChar(t[2]) == 'e' && LowerChar(t[3]) == 't' by {
        assert Lower(t)[0] == LowerChar(t[0]) && Lower(t)[1] == LowerChar(t[1]);
        assert Lower(t)[2] == LowerChar(t[2]) && Lower(t)[3] == LowerChar(t[3]);
      }
    }
  }

  /** For a reply without surrounding whitespace the test is the spelling. */
  lemma UnpaddedReply(reply: string)
    requires reply != [] && !IsSpace(reply[0]) && !IsSpace(reply[|reply| - 1])
    ensures IsAffirmative(reply) <==> IsEvetSpelling(reply)
  {
    StripUnpadded(reply);
    AffirmativeIff(reply);
  }

  /** A reply the gate reads as "relevant": "EVET". */
  lemma UpperCaseAffirmative()
    ensures IsAffirmative("EVET")
  {
    var t := "EVET";
    assert IsEvetSpelling(t);
    UnpaddedReply(t);
  }

  /** A reply the gate reads as "relevant": "Evet" with a space before it
      and a newline after it. */
  lemma PaddedAffirmative()
    ensures IsAffirmative(" " + "Evet" + "\n")
  {
    var t := "Evet";
    StripPadded(" ", t, "\n");
    assert IsEvetSpelling(t);
    AffirmativeIff(" " + t + "\n");
  }

  /** Replies the gate reads as "not relevant". */
  lemma NotAffirmativeExamples()
    ensures !IsAffirmative("HAYIR") && !IsAffirmative("hayır") && !IsAffirmative("") && !IsAffirmative("Evet.")
  {
    UnpaddedReply("HAYIR");
    UnpaddedReply("hayır");
    UnpaddedReply("Evet.");
    AffirmativeIff("");
  }

  /** `ask_if_relevant_enough`: ask the model and read its reply. */
  function AskIfRelevantEnough(question: string, context: string, llm: string -> string): bool {
    IsAffirmative(llm(RelevancePrompt(question, context)))
  }

  /** The answer prompt with the question and the context in place. */
  function AnswerPrompt(question: string, context: string): string {
    "Soru: " + question + "\nVerilen bilgi: " + context + "\n" + AnswerInstructions
  }

  /** "Answer in Turkish, professionally." */
  const AnswerInstructions: string := "Cevabı Türkçe ve profesyonel şekilde ver."

  /** `generate_answer`: the model's reply, unmodified. */
  function GenerateAnswer(question: string, context: string, llm: string -> string): string {
    llm(AnswerPrompt(question, context))
  }
}
