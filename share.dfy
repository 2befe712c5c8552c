/**
 * The share page's save handler: the blank-code and blank-title checks, the
 * tag list parsed from the comma-separated field, and the insert form it
 * submits.
 */
module Share {
  import opened Wrappers
  import opened Text
  import opened Schema

  /** The form state around the editor: category select, tags field, and the two switches. */
  datatype ShareForm = ShareForm(category: string, tags: string, isPublic: bool, allowComments: bool)

  /** What a click on save leads to: one of the two error toasts, or a submission. */
  datatype SaveOutcome = CodeRequired | TitleRequired | Submitted(data: InsertSnippet)

  /** `tags ? tags.split(",").map(tag => tag.trim()) : []`. */
  function ParseTags(tags: string): seq<string> {
    if tags == "" then []
    else
      var pieces := Split(tags, ',');
      seq(|pieces|, k requires 0 <= k < |pieces| => Trim(pieces[k]))
  }

  /**
   * An empty field gives no tags; otherwise there is one tag per comma plus
   * one, each is the trimmed piece between commas (so empty pieces are
   * kept), and no tag contains a comma or starts or ends with whitespace.
   */
  lemma ParseTagsShape(tags: string)
    ensures tags == "" ==> ParseTags(tags) == []
    ensures tags != "" ==> |ParseTags(tags)| == Count(tags, ',') + 1
    ensures tags != "" ==> forall k :: 0 <= k < |ParseTags(tags)| ==> ParseTags(tags)[k] == Trim(Split(tags, ',')[k])
    ensures forall k :: 0 <= k < |ParseTags(tags)| ==> ',' !in ParseTags(tags)[k] && IsTrimmed(ParseTags(tags)[k])
  {
    if tags != "" {
      var pieces := Split(tags, ',');
      forall k | 0 <= k < |pieces| ensures ',' !in Trim(pieces[k]) && IsTrimmed(Trim(pieces[k])) {
        TrimKeepsAbsent(pieces[k], ',');
      }
    }
  }

  /**
   * Two commas in a row give an empty tag between them: "a,,b" parses to
   * the tags a, "" and b.
   */
  lemma EmptyPieceKept(a: string, b: string)
    requires ',' !in a && ',' !in b && IsTrimmed(a) && IsTrimmed(b)
    ensures ParseTags(a + ",," + b) == [a, "", b]
  {
    var tags := a + ",," + b;
    assert tags != "" by { assert tags[|a|] == ','; }
    SplitTwoCommas(a, b);
    TrimmedPiecesKept(tags);
  }

  /** When every piece between commas is already trimmed, the tags are exactly those pieces. */
  lemma TrimmedPiecesKept(tags: string)
    requires tags != ""
    requires forall k :: 0 <= k < |Split(tags, ',')| ==> IsTrimmed(Split(tags, ',')[k])
    ensures ParseTags(tags) == Split(tags, ',')
  {
    var pieces := Split(tags, ',');
    forall k | 0 <= k < |pieces| ensures Trim(pieces[k]) == pieces[k] {
      TrimFixesTrimmed(pieces[k]);
    }
  }

  /** The pieces of "a,,b" between commas are a, "" and b. */
  lemma SplitTwoCommas(a: string, b: string)
    requires ',' !in a && ',' !in b
    ensures Split(a + ",," + b, ',') == [a, "", b]
  {
    var pieces := [a, "", b];
    assert Join(pieces[1..], ',') == [','] + b;
    assert Join(pieces, ',') == a + ",," + b;
    SplitJoin(pieces, ',');
  }

  /**
   * `handleSave`: blank code is refused first, then a blank title; otherwise
   * the editor's values go out untrimmed with the form's category, parsed
   * tags and switches.
   */
  function HandleSave(editorCode: string, editorTitle: string, editorLanguage: string, form: ShareForm): (r: SaveOutcome)
    ensures r.CodeRequired? <==> AllWhitespace(editorCode)
    ensures r.TitleRequired? <==> !AllWhitespace(editorCode) && AllWhitespace(editorTitle)
    ensures r.Submitted? <==> !AllWhitespace(editorCode) && !AllWhitespace(editorTitle)
    ensures r.Submitted? ==> r.data.title == editorTitle && r.data.code == editorCode && r.data.language == editorLanguage
    ensures r.Submitted? ==> r.data.category == form.category && r.data.tags == Some(ParseTags(form.tags))
    ensures r.Submitted? ==> r.data.isPublic == Some(form.isPublic) && r.data.allowComments == Some(form.allowComments)
  {
    BlankIffAllWhitespace(editorCode);
    BlankIffAllWhitespace(editorTitle);
    if IsBlank(editorCode) then CodeRequired
    else if IsBlank(editorTitle) then TitleRequired
    else Submitted(InsertSnippet(editorTitle, editorCode, editorLanguage, form.category,
                                 Some(ParseTags(form.tags)), Some(form.isPublic), Some(form.allowComments)))
  }

  /**
   * Whatever the page submits passes the server's validation unchanged, and
   * the record created from it is public exactly when the switch was on.
   */
  lemma SubmissionAccepted(editorCode: string, editorTitle: string, editorLanguage: string, form: ShareForm,
                           id: string, now: Timestamp)
    requires HandleSave(editorCode, editorTitle, editorLanguage, form).Submitted?
    ensures var data := HandleSave(editorCode, editorTitle, editorLanguage, form).data;
      && ParseInsert(ToJson(data)) == Success(data)
      && NewSnippet(data, id, now).isPublic == form.isPublic
      && NewSnippetAsWritten(data, id, now).isPublic == form.isPublic
  {
    ParseToJson(HandleSave(editorCode, editorTitle, editorLanguage, form).data);
  }
}
