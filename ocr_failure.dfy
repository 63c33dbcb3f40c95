/** The OCR failure test of the thread-based generation, shared by the queue
    manager and the retry manager (`is_ocr_failed`): an empty result, or one
    that mentions an error keyword, is a failure. */
module OcrFailure {
  import opened Text

  /** The failure keywords, in their listed order. */
  const Keywords: seq<string> := [
    "OCR API错误", "OCR API error", "无法连接", "Connection refused",
    "Max retries exceeded", "超时", "timeout"]

  /** `is_ocr_failed` as written: the keywords are looked for, unchanged, in
      the lower-cased text, so a keyword with a capital letter never matches. */
  predicate IsOcrFailedAsWritten(text: string) {
    text == "" || exists k :: 0 <= k < |Keywords| && Contains(Lower(text), Keywords[k])
  }

  /** The failure test with both sides lower-cased: an empty text, or one
      containing any keyword in any letter case. */
  predicate IsOcrFailed(text: string) {
    text == "" || exists k :: 0 <= k < |Keywords| && Contains(Lower(text), Lower(Keywords[k]))
  }

  /** A lower-cased text holds no capital letter. */
  lemma LowerHasNoCapital(text: string, c: char)
    requires 'A' <= c <= 'Z'
    ensures c !in Lower(text)
  {
  }

  /** A character absent from a text, in both letter cases, is absent from
      its lower-cased form. */
  lemma NotInLower(text: string, c: char)
    requires c !in text
    requires 'a' <= c <= 'z' ==> (c as int - 32) as char !in text
    ensures c !in Lower(text)
  {
    forall i | 0 <= i < |text| ensures Lower(text)[i] != c {
      assert text[i] != c;
    }
  }

  /** As written, a non-empty text without "无", "超" and "t" in either case
      is never a failure: every keyword either holds one of those or a
      capital letter, and the lower-cased text holds no capital. */
  lemma AsWrittenMisses(text: string)
    requires text != ""
    requires '无' !in text && '超' !in text && 't' !in text && 'T' !in text
    ensures !IsOcrFailedAsWritten(text)
  {
    var low := Lower(text);
    LowerHasNoCapital(text, 'O');
    LowerHasNoCapital(text, 'C');
    LowerHasNoCapital(text, 'M');
    NotInLower(text, '无');
    NotInLower(text, '超');
    NotInLower(text, 't');
    NotContainsMissingChar(low, Keywords[0], 'O');
    NotContainsMissingChar(low, Keywords[1], 'O');
    NotContainsMissingChar(low, Keywords[2], '无');
    NotContainsMissingChar(low, Keywords[3], 'C');
    NotContainsMissingChar(low, Keywords[4], 'M');
    NotContainsMissingChar(low, Keywords[5], '超');
    NotContainsMissingChar(low, Keywords[6], 't');
  }

  /** The prefix of the OCR client's replies for a failed request. */
  const ErrorMarker: string := "OCR API错误: "

  /** The lower-cased text holds none of the three keywords without
      capitals, "无法连接", "超时" and "timeout". */
  predicate NoPlainKeyword(text: string) {
    !Contains(Lower(text), Keywords[2]) && !Contains(Lower(text), Keywords[5]) && !Contains(Lower(text), Keywords[6])
  }

  /** As written, an error reply of the OCR client passes as recognised text
      unless its lower-cased form holds one of the three keywords without
      capitals: "OCR API错误" has capitals and so never occurs in the
      lower-cased reply. The reply for a request error other than a lost
      connection or a time-out, `"OCR API错误: " + str(e)`, is such a reply
      whenever the request library's message lacks those keywords. The
      corrected test counts every such reply as a failure. */
  lemma AsWrittenMissesErrorReply(detail: string)
    requires NoPlainKeyword(ErrorMarker + detail)
    ensures !IsOcrFailedAsWritten(ErrorMarker + detail)
    ensures IsOcrFailed(ErrorMarker + detail)
  {
    var text := ErrorMarker + detail;
    var low := Lower(text);
    assert text[0] == 'O';
    LowerHasNoCapital(text, 'O');
    LowerHasNoCapital(text, 'C');
    LowerHasNoCapital(text, 'M');
    NotContainsMissingChar(low, Keywords[0], 'O');
    NotContainsMissingChar(low, Keywords[1], 'O');
    NotContainsMissingChar(low, Keywords[3], 'C');
    NotContainsMissingChar(low, Keywords[4], 'M');
    ErrorMarkerIsFailure(detail);
  }

  /** With the keywords lower-cased too, every error reply of the OCR client
      is a failure. */
  lemma ErrorMarkerIsFailure(detail: string)
    ensures IsOcrFailed(ErrorMarker + detail)
  {
    var rest := ": " + detail;
    assert ErrorMarker + detail == Keywords[0] + rest;
    LowerConcat(Keywords[0], rest);
    ContainsPrefix(Lower(rest), Lower(Keywords[0]));
  }

  /** The reply for an unknown error is a failure by the corrected test and
      a success by the written one. */
  lemma UnknownErrorReply()
    ensures !IsOcrFailedAsWritten(ErrorMarker + "未知错误")
    ensures IsOcrFailed(ErrorMarker + "未知错误")
  {
    var text := ErrorMarker + "未知错误";
    assert '无' !in text && '超' !in text && 't' !in text && 'T' !in text;
    assert text[0] == 'O';
    AsWrittenMisses(text);
    ErrorMarkerIsFailure("未知错误");
  }

  /** Every failure by the written test is a failure by the corrected one:
      lower-casing the keywords only adds matches. The converse fails, as
      `AsWrittenMissesErrorReply` shows. */
  lemma AsWrittenWithinCorrected(text: string)
    ensures IsOcrFailedAsWritten(text) ==> IsOcrFailed(text)
  {
    if text != "" && IsOcrFailedAsWritten(text) {
      var low := Lower(text);
      LowerHasNoCapital(text, 'O');
      LowerHasNoCapital(text, 'C');
      LowerHasNoCapital(text, 'M');
      NotContainsMissingChar(low, Keywords[0], 'O');
      NotContainsMissingChar(low, Keywords[1], 'O');
      NotContainsMissingChar(low, Keywords[3], 'C');
      NotContainsMissingChar(low, Keywords[4], 'M');
      var k :| 0 <= k < |Keywords| && Contains(low, Keywords[k]);
      assert k == 2 || k == 5 || k == 6;
      LowerOfLower(Keywords[k]);
      assert Contains(low, Lower(Keywords[k]));
    }
  }

  /** Which failure test a manager applies: `is_ocr_failed` as the source
      writes it, or the corrected one. */
  datatype FailureTest = AsWritten | Corrected

  /** The failure test `test` on `text`. */
  predicate Fails(test: FailureTest, text: string) {
    match test
    case AsWritten => IsOcrFailedAsWritten(text)
    case Corrected => IsOcrFailed(text)
  }

  /** Both tests count an empty result as a failure, and every failure by
      the written test is one by the corrected test. */
  lemma FailsOrdered(test: FailureTest, text: string)
    ensures text == "" ==> Fails(test, text)
    ensures Fails(AsWritten, text) ==> Fails(Corrected, text)
  {
    AsWrittenWithinCorrected(text);
  }

  /** The two tests part exactly on texts the written one passes and the
      corrected one fails, the OCR client's request-error replies among
      them. */
  lemma ErrorReplySplitsTests(detail: string)
    requires NoPlainKeyword(ErrorMarker + detail)
    ensures !Fails(AsWritten, ErrorMarker + detail) && Fails(Corrected, ErrorMarker + detail)
  {
    AsWrittenMissesErrorReply(detail);
  }
}
