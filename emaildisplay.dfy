/**
 * The email view of the client: `parseEmail` cuts a generated email into its subject and body,
 * the refine button sends the instruction and the email written back as `Subject: …` text,
 * and the list of sources leaves out the cited article.
 */
module EmailDisplay {
  import opened Wrappers
  import opened Strings

  datatype Email = Email(subject: string, body: string)

  /** The lower-cased start of a subject line; its 8 characters are what `substring(8)` cuts. */
  const SUBJECT_PREFIX := "subject:"

  // ---------------------------------------------------------------------------------------------
  // parseEmail
  // ---------------------------------------------------------------------------------------------

  /** A line that, trimmed and lower-cased, starts with `subject:`. */
  predicate IsSubjectLine(line: string) {
    StartsWith(ToLower(Trim(line)), SUBJECT_PREFIX)
  }

  /** The subject a subject line gives: the trimmed line after its first 8 characters, trimmed. */
  function SubjectOf(line: string): string
    requires IsSubjectLine(line)
  {
    Trim(Trim(line)[8..])
  }

  /** The first subject line at or after `from`. */
  function FindSubject(lines: seq<string>, from: nat): (r: Option<nat>)
    requires from <= |lines|
    ensures r.Some? ==> && from <= r.value < |lines| && IsSubjectLine(lines[r.value])
                        && forall j :: from <= j < r.value ==> !IsSubjectLine(lines[j])
    ensures r.None? ==> forall j :: from <= j < |lines| ==> !IsSubjectLine(lines[j])
    decreases |lines| - from
  {
    if from == |lines| then None
    else if IsSubjectLine(lines[from]) then Some(from)
    else FindSubject(lines, from + 1)
  }

  /** The first line at or after `from` that is not blank, or the number of lines. */
  function SkipBlankLines(lines: seq<string>, from: nat): (n: nat)
    requires from <= |lines|
    ensures from <= n <= |lines|
    ensures forall j :: from <= j < n ==> Trim(lines[j]) == ""
    ensures n < |lines| ==> Trim(lines[n]) != ""
    decreases |lines| - from
  {
    if from < |lines| && Trim(lines[from]) == "" then SkipBlankLines(lines, from + 1) else from
  }

  /**
   * What `parseEmail` returns: the subject of the first subject line, and as body the lines
   * after it, past the blank ones, joined and trimmed; with no subject line, an empty subject
   * and the whole text trimmed.
   */
  function ParsedEmail(text: string): (r: Email)
    ensures text == "" ==> r == Email("", "")
    ensures Trimmed(r.subject) && Trimmed(r.body)
  {
    if text == "" then Email("", "")
    else
      var lines := Split(text, "\n");
      match FindSubject(lines, 0)
      case None => Email("", Trim(Join(lines, "\n")))
      case Some(i) => Email(SubjectOf(lines[i]), Trim(Join(lines[SkipBlankLines(lines, i + 1)..], "\n")))
  }

  /** `parseEmail`: the loop over the lines, stopped by the first subject line. */
  method ParseEmail(text: string) returns (r: Email)
    ensures r == ParsedEmail(text)
  {
    if text == "" {
      return Email("", "");
    }
    var lines := Split(text, "\n");
    var subject := "";
    var bodyStart := 0;
    for i := 0 to |lines|
      invariant FindSubject(lines, i) == FindSubject(lines, 0)
      invariant subject == "" && bodyStart == 0
    {
      var line := Trim(lines[i]);
      if StartsWith(ToLower(line), "subject:") {
        assert FindSubject(lines, 0) == Some(i);
        subject := Trim(line[8..]);
        bodyStart := i + 1;
        while bodyStart < |lines| && Trim(lines[bodyStart]) == ""
          invariant i + 1 <= bodyStart <= |lines|
          invariant SkipBlankLines(lines, bodyStart) == SkipBlankLines(lines, i + 1)
        {
          bodyStart := bodyStart + 1;
        }
        assert bodyStart == SkipBlankLines(lines, i + 1);
        break;
      }
    }
    r := Email(subject, Trim(Join(lines[bodyStart..], "\n")));
  }

  /** With no subject line, the subject is empty and the body is the whole text, trimmed. */
  lemma NoSubjectLine(text: string)
    requires forall k :: 0 <= k < |Split(text, "\n")| ==> !IsSubjectLine(Split(text, "\n")[k])
    ensures ParsedEmail(text) == Email("", Trim(text))
  {
    JoinSplit(text, "\n");
  }

  /** A parsed subject never holds a line break. */
  lemma SubjectHasNoBreak(text: string)
    ensures '\n' !in ParsedEmail(text).subject
  {
    if text != "" {
      var lines := Split(text, "\n");
      var found := FindSubject(lines, 0);
      if found.Some? {
        var line := lines[found.value];
        SplitPiecesFree(text, "\n");
        ContainsChar(line, '\n');
        TrimKeepsOut(line, '\n');
        var t := Trim(line);
        assert forall k :: 0 <= k < |t[8..]| ==> t[8..][k] == t[k + 8];
        TrimKeepsOut(t[8..], '\n');
      }
    }
  }

  // ---------------------------------------------------------------------------------------------
  // The text the refine button sends, parsed back
  // ---------------------------------------------------------------------------------------------

  /** The email written back as text: `Subject: ${subject}\n\n${body}`. */
  function EmailText(subject: string, body: string): (r: string)
    ensures StartsWith(r, "Subject: " + subject)
    ensures |r| >= |body| && r[|r| - |body|..] == body
  {
    var r := "Subject: " + subject + "\n\n" + body;
    assert r == ("Subject: " + subject) + ("\n\n" + body);
    assert r[|r| - |body|..] == body;
    r
  }

  /** `Subject: ` and a subject is a subject line, and gives back the subject, trimmed. */
  lemma SubjectLineOf(s: string)
    ensures IsSubjectLine("Subject: " + s) && SubjectOf("Subject: " + s) == Trim(s)
  {
    var p, x := "Subject:", " " + s;
    assert "Subject: " + s == p + x;
    TrimAfterTrimmed(p, x);
    ToLowerPrefix(Trim(p + x), p);
    LowerSubject();
    TrimAround(" ", s, "");
    assert " " + s + "" == x;
  }

  lemma LowerSubject()
    ensures ToLower("Subject:") == SUBJECT_PREFIX
  {
  }

  /** The lines of the text: the subject line, a blank line, then the lines of the body. */
  lemma EmailTextLines(s: string, b: string)
    requires '\n' !in s
    ensures Split(EmailText(s, b), "\n") == ["Subject: " + s, ""] + Split(b, "\n")
  {
    var line := "Subject: " + s;
    assert EmailText(s, b) == line + ['\n'] + ("" + ['\n'] + b);
    SplitLine(line, '\n', "" + ['\n'] + b);
    SplitLine("", '\n', b);
    assert "" + ['\n'] + b == "\n" + b;
  }

  /** Skipping blank lines after a prefix of lines is skipping them in the rest. */
  lemma {:induction false} SkipBlankShift(pre: seq<string>, rest: seq<string>, k: nat)
    requires k <= |rest|
    ensures SkipBlankLines(pre + rest, |pre| + k) == |pre| + SkipBlankLines(rest, k)
    decreases |rest| - k
  {
    if k < |rest| {
      assert (pre + rest)[|pre| + k] == rest[k];
      if Trim(rest[k]) == "" {
        SkipBlankShift(pre, rest, k + 1);
      }
    }
  }

  /** The body lines past the blank ones, joined and trimmed, are the body trimmed. */
  lemma BodyPastBlankLines(b: string)
    ensures var parts := Split(b, "\n");
            Trim(Join(parts[SkipBlankLines(parts, 0)..], "\n")) == Trim(b)
  {
    var parts := Split(b, "\n");
    var m := SkipBlankLines(parts, 0);
    JoinSplit(b, "\n");
    forall k | 0 <= k < m
      ensures AllWhitespace(parts[k])
    {
      TrimEmptyIff(parts[k]);
    }
    assert AllWhitespace("\n");
    if m == |parts| {
      JoinAllWhitespace(parts, "\n");
      TrimEmptyIff(b);
      assert parts[m..] == [];
      assert Trim("") == "";
    } else if m > 0 {
      JoinAt(parts, m, "\n");
      assert forall k :: 0 <= k < m ==> parts[..m][k] == parts[k];
      JoinAllWhitespace(parts[..m], "\n");
      AllWhitespaceConcat(Join(parts[..m], "\n"), "\n");
      TrimAround(Join(parts[..m], "\n") + "\n", Join(parts[m..], "\n"), "");
      assert Join(parts[..m], "\n") + "\n" + Join(parts[m..], "\n") + "" == b;
    } else {
      assert parts[0..] == parts;
    }
  }

  /**
   * The round trip: the text the refine button sends, parsed, gives back the subject and the
   * body, trimmed, whenever the subject is on one line.
   */
  lemma EmailTextRoundTrip(s: string, b: string)
    requires '\n' !in s
    ensures ParsedEmail(EmailText(s, b)) == Email(Trim(s), Trim(b))
  {
    var lines := Split(EmailText(s, b), "\n");
    EmailTextLines(s, b);
    SubjectLineOf(s);
    assert FindSubject(lines, 0) == Some(0);
    BodyLinesOf(s, b);
    BodyPastBlankLines(b);
  }

  /** The body of the text starts at the first non-blank line of the body. */
  lemma BodyLinesOf(s: string, b: string)
    requires '\n' !in s
    ensures var lines, parts := Split(EmailText(s, b), "\n"), Split(b, "\n");
            lines[SkipBlankLines(lines, 1)..] == parts[SkipBlankLines(parts, 0)..]
  {
    var lines := Split(EmailText(s, b), "\n");
    var pre, parts := ["Subject: " + s, ""], Split(b, "\n");
    EmailTextLines(s, b);
    assert Trim(lines[1]) == "" by {
      assert lines[1] == "";
      TrimEmptyIff("");
    }
    SkipBlankShift(pre, parts, 0);
    var m := SkipBlankLines(parts, 0);
    assert SkipBlankLines(lines, 1) == 2 + m;
    assert lines[2 + m..] == parts[m..];
  }

  /** Writing a parsed email back as text and parsing it again changes nothing. */
  lemma ReparseIsIdentity(text: string)
    ensures var e := ParsedEmail(text);
            ParsedEmail(EmailText(e.subject, e.body)) == e
  {
    var e := ParsedEmail(text);
    SubjectHasNoBreak(text);
    EmailTextRoundTrip(e.subject, e.body);
    TrimTrimmed(e.subject);
    TrimTrimmed(e.body);
  }

  // ---------------------------------------------------------------------------------------------
  // handleRefineSubmit
  // ---------------------------------------------------------------------------------------------

  /** The refine click: the call made to `onRefine`, if any, and the instruction field after it. */
  datatype RefineSubmit = RefineSubmit(call: Option<(string, string)>, instruction: string)

  /**
   * `handleRefineSubmit`: nothing happens for a blank instruction or while a refinement runs;
   * otherwise `onRefine` gets the trimmed instruction and the email as text, and the field is
   * cleared.
   */
  function HandleRefineSubmit(instruction: string, isRefining: bool, subject: string, body: string)
    : (r: RefineSubmit)
    ensures r.call.Some? <==> Trim(instruction) != "" && !isRefining
    ensures r.call.None? ==> r.instruction == instruction
    ensures r.call.Some? ==> r.instruction == "" && r.call.value.0 == Trim(instruction)
    ensures r.call.Some? ==> r.call.value.1 == EmailText(subject, body)
  {
    if Trim(instruction) == "" || isRefining then RefineSubmit(None, instruction)
    else RefineSubmit(Some((Trim(instruction), EmailText(subject, body))), "")
  }

  /** The text sent parses back to the subject and the body, trimmed, when the subject is one line. */
  lemma RefineSubmitText(instruction: string, isRefining: bool, subject: string, body: string)
    requires '\n' !in subject
    ensures var r := HandleRefineSubmit(instruction, isRefining, subject, body);
            r.call.Some? ==> ParsedEmail(r.call.value.1) == Email(Trim(subject), Trim(body))
  {
    EmailTextRoundTrip(subject, body);
  }

  /** Refining an email as it was parsed sends a text that parses to that same email. */
  lemma RefineSendsParsedEmail(instruction: string, isRefining: bool, email: string)
    requires Trim(instruction) != "" && !isRefining
    ensures var e := ParsedEmail(email);
            var r := HandleRefineSubmit(instruction, isRefining, e.subject, e.body);
            r.call.Some? && ParsedEmail(r.call.value.1) == e
  {
    ReparseIsIdentity(email);
  }

  // ---------------------------------------------------------------------------------------------
  // Sources other than the cited one
  // ---------------------------------------------------------------------------------------------

  datatype ClientArticle = ClientArticle(title: string, source: string, url: Option<string>,
                                         publishedAt: Option<string>)

  /** What the view reads of the response; a missing part is `None`. */
  datatype Meta = Meta(articles: Option<seq<ClientArticle>>, citedArticle: Option<ClientArticle>)

  /** The articles whose `url` differs from `url`, in order; `undefined` equals `undefined`. */
  function WithoutUrl(articles: seq<ClientArticle>, url: Option<string>): (r: seq<ClientArticle>)
    ensures |r| <= |articles|
    ensures forall k :: 0 <= k < |r| ==> r[k].url != url
    decreases |articles|
  {
    if |articles| == 0 then []
    else (if articles[0].url != url then [articles[0]] else []) + WithoutUrl(articles[1..], url)
  }

  /** `otherArticles`: without a cited article, all the articles; otherwise those not cited. */
  function OtherArticles(meta: Option<Meta>): (r: seq<ClientArticle>)
    ensures meta.None? || meta.value.articles.None? ==> r == []
  {
    match meta
    case None => []
    case Some(m) =>
      match m.articles
      case None => []
      case Some(articles) =>
        if m.citedArticle.None? then articles else WithoutUrl(articles, m.citedArticle.value.url)
  }

  /** An article is kept exactly when it is one of the articles and its `url` differs. */
  lemma {:induction false} WithoutUrlMembers(articles: seq<ClientArticle>, url: Option<string>,
                                             a: ClientArticle)
    ensures a in WithoutUrl(articles, url) <==> a in articles && a.url != url
    decreases |articles|
  {
    if |articles| > 0 {
      WithoutUrlMembers(articles[1..], url, a);
      assert articles == [articles[0]] + articles[1..];
    }
  }

  /** The filter keeps the order: filtering a concatenation filters each part. */
  lemma {:induction false} WithoutUrlConcat(xs: seq<ClientArticle>, ys: seq<ClientArticle>,
                                            url: Option<string>)
    ensures WithoutUrl(xs + ys, url) == WithoutUrl(xs, url) + WithoutUrl(ys, url)
    decreases |xs|
  {
    if |xs| == 0 {
      assert xs + ys == ys;
    } else {
      assert (xs + ys)[1..] == xs[1..] + ys;
      WithoutUrlConcat(xs[1..], ys, url);
    }
  }

  /** When no article has the cited `url`, every article is kept. */
  lemma {:induction false} WithoutUrlAbsent(articles: seq<ClientArticle>, url: Option<string>)
    requires forall k :: 0 <= k < |articles| ==> articles[k].url != url
    ensures WithoutUrl(articles, url) == articles
    decreases |articles|
  {
    if |articles| > 0 {
      WithoutUrlAbsent(articles[1..], url);
      assert [articles[0]] + articles[1..] == articles;
    }
  }

  /**
   * The articles listed as other sources: all of them when none is cited, otherwise exactly
   * those whose `url` differs from the cited one's.
   */
  lemma OtherArticlesAre(m: Meta, a: ClientArticle)
    requires m.articles.Some?
    ensures m.citedArticle.None? ==> OtherArticles(Some(m)) == m.articles.value
    ensures m.citedArticle.Some? ==>
              (a in OtherArticles(Some(m)) <==> a in m.articles.value && a.url != m.citedArticle.value.url)
  {
    if m.citedArticle.Some? {
      WithoutUrlMembers(m.articles.value, m.citedArticle.value.url, a);
    }
  }
}
