/**
 * The result store: an answer list is written as an `Answers` document with one
 * `Question` child per answer, and read back as the texts of those children.
 * The document is modelled by its sequence of (number, text) records; files live in
 * a directory that maps file names to documents.
 */
module ResultStore {
  import opened Wrappers

  /** A `<Question number="…">text</Question>` element. */
  datatype Question = Question(number: int, text: string)

  /** The `Question` children of the `Answers` root element, in document order. */
  type Document = seq<Question>

  /** File name used for the answer key. */
  const AnswerKeyFile: string := "answerkey.xml"
  /** File name used for the user's answers. */
  const UserAnswersFile: string := "kullanici_cevap.xml"

  /** The records are numbered 1, 2, …, n in document order. */
  predicate WellNumbered(doc: Document) {
    forall i :: 0 <= i < |doc| ==> doc[i].number == i + 1
  }

  /**
   * The body of `loadAnswersFromXml` once a file is found: the text content of every
   * `Question` element, in document order. The number attributes are not consulted.
   */
  function QuestionTexts(doc: Document): (answers: seq<string>)
    ensures |answers| == |doc|
    ensures forall i :: 0 <= i < |doc| ==> answers[i] == doc[i].text
  {
    seq(|doc|, i requires 0 <= i < |doc| => doc[i].text)
  }

  /** `loadAnswersFromXml` on a file that may not exist: a missing file gives the empty list. */
  function LoadAnswers(file: Option<Document>): (answers: seq<string>)
    ensures file.None? ==> answers == []
    ensures file.Some? ==> |answers| == |file.value|
    ensures file.Some? ==> forall i :: 0 <= i < |answers| ==> answers[i] == file.value[i].text
  {
    match file
    case None => []
    case Some(doc) => QuestionTexts(doc)
  }

  /**
   * The `forEachIndexed` loop of `saveAnswersToXml`: one `Question` per answer, in list
   * order, numbered from 1, carrying the answer as its text. Reading the result back
   * gives the list again.
   */
  method BuildQuestions(answers: seq<string>) returns (doc: Document)
    ensures |doc| == |answers|
    ensures WellNumbered(doc)
    ensures forall i :: 0 <= i < |doc| ==> doc[i].text == answers[i]
    ensures QuestionTexts(doc) == answers
  {
    doc := [];
    var index := 0;
    while index < |answers|
      invariant 0 <= index <= |answers|
      invariant |doc| == index
      invariant WellNumbered(doc)
      invariant forall i :: 0 <= i < index ==> doc[i].text == answers[i]
    {
      doc := doc + [Question(index + 1, answers[index])];
      index := index + 1;
    }
  }

  /**
   * Two well-numbered documents with the same texts are the same document, so the one
   * `BuildQuestions` writes is the only well-numbered document that loads as `answers`.
   */
  lemma {:induction false} WellNumberedDeterminedByTexts(d1: Document, d2: Document)
    requires WellNumbered(d1) && WellNumbered(d2)
    requires QuestionTexts(d1) == QuestionTexts(d2)
    ensures d1 == d2
  {
    assert |d1| == |d2|;
    forall i | 0 <= i < |d1| ensures d1[i] == d2[i] {
      assert QuestionTexts(d1)[i] == d1[i].text;
      assert QuestionTexts(d2)[i] == d2[i].text;
    }
  }

  /** The application's private files directory: which documents exist, under which names. */
  class FilesDir {
    var files: map<string, Document>

    constructor ()
      ensures files == map[]
    {
      files := map[];
    }

    /** `File(filesDir, fileName)`: the stored document, or `None` when the file does not exist. */
    function Open(fileName: string): (file: Option<Document>)
      reads this
      ensures file.Some? <==> fileName in files
      ensures file.Some? ==> file.value == files[fileName]
    {
      if fileName in files then Some(files[fileName]) else None
    }

    /** `loadAnswersFromXml(fileName)`: the saved answers, or the empty list for a missing file. */
    function LoadAnswersFromXml(fileName: string): (answers: seq<string>)
      reads this
      ensures fileName !in files ==> answers == []
      ensures fileName in files ==> |answers| == |files[fileName]|
      ensures fileName in files ==> answers == QuestionTexts(files[fileName])
    {
      LoadAnswers(Open(fileName))
    }

    /**
     * `saveAnswersToXml(fileName, answers)`: creates or overwrites one file with a
     * well-numbered document; loading that file afterwards gives `answers` back.
     */
    method SaveAnswersToXml(fileName: string, answers: seq<string>)
      modifies this
      ensures fileName in files && WellNumbered(files[fileName])
      ensures |files[fileName]| == |answers|
      ensures LoadAnswersFromXml(fileName) == answers
      ensures forall other :: other != fileName ==> Open(other) == old(Open(other))
    {
      var doc := BuildQuestions(answers);
      files := files[fileName := doc];
    }
  }
}
