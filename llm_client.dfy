/**
 * The prompt `answer_question` sends to the chat model (`services/llm/client.py`): the
 * retrieved chunks as numbered excerpts, the conversation so far, and the question, after
 * the system prompt. The model call itself and its timeout are not modelled; the system
 * prompt text is a parameter.
 */
module LlmClient {
  import opened Text
  import Chat

  const EXCERPT_SEPARATOR: string := "\n\n"
  const HISTORY_SEPARATOR: string := "\n"
  const NO_HISTORY: string := "None"
  const EXCERPTS_HEADING: string := "SEC Filing Excerpts:\n"
  const HISTORY_HEADING: string := "\n\nConversation History:\n"
  const QUESTION_HEADING: string := "\n\nQuestion: "

  /** The label of the excerpt at position `i`; excerpts are numbered from one. */
  function ExcerptLabel(i: nat): string {
    "[Excerpt " + NatToString(i + 1) + "]:\n"
  }

  /** `f"[Excerpt {i+1}]:\n{chunk}"` for each chunk, in retrieval order. */
  function ExcerptBlocks(chunks: seq<string>): (r: seq<string>)
    ensures |r| == |chunks|
  {
    seq(|chunks|, i requires 0 <= i < |chunks| => ExcerptLabel(i) + chunks[i])
  }

  /** `context`: the blocks joined by a blank line. */
  function Context(chunks: seq<string>): string {
    Join(ExcerptBlocks(chunks), EXCERPT_SEPARATOR)
  }

  /** `f"{msg['role'].title()}: {msg['content']}"` */
  function HistoryLine(m: Chat.ChatMessage): string {
    Title(m.role) + ": " + m.content
  }

  function HistoryLines(history: seq<Chat.ChatMessage>): (r: seq<string>)
    ensures |r| == |history|
  {
    seq(|history|, i requires 0 <= i < |history| => HistoryLine(history[i]))
  }

  /** `conv_text`: one line per message, or `None` for an empty history. */
  function HistoryText(history: seq<Chat.ChatMessage>): string {
    if history == [] then NO_HISTORY else Join(HistoryLines(history), HISTORY_SEPARATOR)
  }

  /** The user message: excerpts, then history, then the question. */
  function UserContent(chunks: seq<string>, history: seq<Chat.ChatMessage>, question: string): string {
    EXCERPTS_HEADING + Context(chunks) + HISTORY_HEADING + HistoryText(history) + QUESTION_HEADING + question
  }

  /** `messages`: the system prompt, then the user message. */
  function BuildMessages(answerPrompt: string, chunks: seq<string>, history: seq<Chat.ChatMessage>, question: string)
    : (r: seq<Chat.ChatMessage>)
    ensures |r| == 2
    ensures r[0] == Chat.ChatMessage("system", answerPrompt)
    ensures r[1].role == "user"
    ensures StartsWith(r[1].content, EXCERPTS_HEADING + Context(chunks))
    ensures EndsWith(r[1].content, QUESTION_HEADING + question)
  {
    var content := UserContent(chunks, history, question);
    assert content == (EXCERPTS_HEADING + Context(chunks)) + (HISTORY_HEADING + HistoryText(history) + QUESTION_HEADING + question);
    assert content == (EXCERPTS_HEADING + Context(chunks) + HISTORY_HEADING + HistoryText(history)) + (QUESTION_HEADING + question);
    [Chat.ChatMessage("system", answerPrompt), Chat.ChatMessage("user", content)]
  }

  // ---------------------------------------------------------------------------
  // The layout the citation step relies on

  /**
   * The block of chunk `i` stands in the context, labelled with the number `i + 1`; an
   * answer citing that number gets chunk `i` back from the citation filter.
   */
  lemma ExcerptNumbered(chunks: seq<string>, i: nat)
    requires i < |chunks|
    ensures OccursAt(Context(chunks), "[Excerpt " + NatToString(i + 1) + "]:\n" + chunks[i],
                     JoinOffset(ExcerptBlocks(chunks), EXCERPT_SEPARATOR, i))
    ensures Chat.CitedChunks([DigitsToNat(NatToString(i + 1))], chunks) == [chunks[i]]
  {
    var blocks := ExcerptBlocks(chunks);
    assert blocks[i] == "[Excerpt " + NatToString(i + 1) + "]:\n" + chunks[i];
    JoinOffsetAt(blocks, EXCERPT_SEPARATOR, i);
    DigitsToNatOfNatToString(i + 1);
    CitedSingle(i + 1, chunks);
  }

  lemma CitedSingle(n: nat, chunks: seq<string>)
    requires 1 <= n <= |chunks|
    ensures Chat.CitedChunks([n], chunks) == [chunks[n - 1]]
  {
    assert [n][..0] == [];
  }

  /** Excerpts appear in retrieval order, a blank line at least between two of them. */
  lemma ExcerptsInOrder(chunks: seq<string>, i: nat, j: nat)
    requires i < j < |chunks|
    ensures var blocks := ExcerptBlocks(chunks);
      JoinOffset(blocks, EXCERPT_SEPARATOR, i) + |ExcerptLabel(i) + chunks[i]| + 2 <= JoinOffset(blocks, EXCERPT_SEPARATOR, j)
  {
    JoinOrder(ExcerptBlocks(chunks), EXCERPT_SEPARATOR, i, j);
  }

  /** The history text is `None` exactly when there is no history: every line has a colon. */
  lemma HistoryNone(history: seq<Chat.ChatMessage>)
    ensures HistoryText(history) == NO_HISTORY <==> history == []
  {
    if history != [] {
      var lines := HistoryLines(history);
      var first := lines[0];
      JoinStartsWith(lines, HISTORY_SEPARATOR);
      var text := Join(lines, HISTORY_SEPARATOR);
      var k := |Title(history[0].role)|;
      assert first[k] == ':';
      assert text[k] == ':';
      assert forall c | c in NO_HISTORY :: c != ':';
    }
  }

  /** Each message of the history has its line, in the order of the conversation. */
  lemma HistoryInOrder(history: seq<Chat.ChatMessage>, i: nat, j: nat)
    requires i < j < |history|
    ensures var lines := HistoryLines(history);
      && OccursAt(HistoryText(history), HistoryLine(history[i]), JoinOffset(lines, HISTORY_SEPARATOR, i))
      && OccursAt(HistoryText(history), HistoryLine(history[j]), JoinOffset(lines, HISTORY_SEPARATOR, j))
      && JoinOffset(lines, HISTORY_SEPARATOR, i) + |HistoryLine(history[i])| < JoinOffset(lines, HISTORY_SEPARATOR, j)
  {
    var lines := HistoryLines(history);
    JoinOffsetAt(lines, HISTORY_SEPARATOR, i);
    JoinOffsetAt(lines, HISTORY_SEPARATOR, j);
    JoinOrder(lines, HISTORY_SEPARATOR, i, j);
  }

  /** The roles the chat sends come out capitalised. */
  lemma RoleTitles()
    ensures Title("user") == "User" && Title("assistant") == "Assistant"
  {
  }

  /**
   * The user message holds the excerpts first, the history after them, and the question
   * last, each behind its heading.
   */
  lemma UserContentOrder(chunks: seq<string>, history: seq<Chat.ChatMessage>, question: string)
    ensures var content := UserContent(chunks, history, question);
      var historyAt := |EXCERPTS_HEADING| + |Context(chunks)|;
      && StartsWith(content, EXCERPTS_HEADING + Context(chunks))
      && OccursAt(content, HISTORY_HEADING + HistoryText(history), historyAt)
      && EndsWith(content, QUESTION_HEADING + question)
      && historyAt + |HISTORY_HEADING + HistoryText(history)| + |QUESTION_HEADING + question| == |content|
  {
    Regroup(EXCERPTS_HEADING, Context(chunks), HISTORY_HEADING, HistoryText(history), QUESTION_HEADING, question);
    ThreeParts(EXCERPTS_HEADING + Context(chunks), HISTORY_HEADING + HistoryText(history), QUESTION_HEADING + question);
  }

  lemma Regroup(p1: string, p2: string, p3: string, p4: string, p5: string, p6: string)
    ensures p1 + p2 + p3 + p4 + p5 + p6 == (p1 + p2) + (p3 + p4) + (p5 + p6)
  {
  }

  /** A concatenation of three parts starts with the first, holds the second after it, and ends with the third. */
  lemma ThreeParts(a: string, b: string, c: string)
    ensures StartsWith(a + b + c, a) && OccursAt(a + b + c, b, |a|) && EndsWith(a + b + c, c)
  {
    assert (a + b + c)[..|a|] == a;
    assert (a + b + c)[|a|..|a| + |b|] == b;
    assert (a + b + c)[|a + b|..] == c;
  }
}
