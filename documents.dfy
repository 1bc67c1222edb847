/**
 * The document processor: the resume and the job description are loaded (PDF or
 * text loader for the resume, text loader for the job description), every page is
 * tagged with its source, and the text of each source is recovered by filtering on
 * the tag and joining the pages with newlines.
 */
module DocumentProcessor {
  import opened Wrappers
  import PyStr

  /** A loaded page: its text and its `source_type` metadata, if set. */
  datatype Doc = Doc(content: string, sourceType: Option<string>)

  /** What a loader call does: the pages, or the exception it raises. */
  datatype LoaderOutcome = Pages(docs: seq<Doc>) | FileMissing(reason: string) | LoadFailure(reason: string)

  /** The two exceptions `load_documents` re-raises. */
  datatype LoadError = FileNotFound(message: string) | LoadingFailed(message: string)

  const ResumeTag := "resume"
  const JobTag := "job_description"
  const PdfSuffix := ".pdf"
  const NotFoundPrefix := "Could not find file: "
  const LoadErrorPrefix := "Error loading documents: "

  /** Every page with `source_type` set to `tag`, text and order kept. */
  function Tagged(docs: seq<Doc>, tag: string): (r: seq<Doc>)
    ensures |r| == |docs|
    ensures forall i :: 0 <= i < |docs| ==> r[i] == Doc(docs[i].content, Some(tag))
  {
    seq(|docs|, i requires 0 <= i < |docs| => Doc(docs[i].content, Some(tag)))
  }

  /** The resume goes through the PDF loader exactly when its path ends in ".pdf". */
  function ResumeLoad(resumePath: string, pdfLoader: string -> LoaderOutcome,
                      textLoader: string -> LoaderOutcome): (r: LoaderOutcome)
    ensures PyStr.EndsWith(resumePath, PdfSuffix) ==> r == pdfLoader(resumePath)
    ensures !PyStr.EndsWith(resumePath, PdfSuffix) ==> r == textLoader(resumePath)
  {
    if PyStr.EndsWith(resumePath, PdfSuffix) then pdfLoader(resumePath) else textLoader(resumePath)
  }

  /** The exception a failing load is re-raised as. */
  function LoadErrorOf(o: LoaderOutcome): LoadError
    requires !o.Pages?
  {
    if o.FileMissing? then FileNotFound(NotFoundPrefix + o.reason)
    else LoadingFailed(LoadErrorPrefix + o.reason)
  }

  /** `load_documents`: load both sources (the resume first), then tag the pages of each
      in a loop and return the resume pages followed by the job description pages. */
  method LoadDocuments(resumePath: string, jobDescPath: string,
                       pdfLoader: string -> LoaderOutcome, textLoader: string -> LoaderOutcome)
    returns (r: Result<seq<Doc>, LoadError>)
    ensures var resume := ResumeLoad(resumePath, pdfLoader, textLoader);
      var job := textLoader(jobDescPath);
      && (!resume.Pages? ==> r == Err(LoadErrorOf(resume)))
      && (resume.Pages? && !job.Pages? ==> r == Err(LoadErrorOf(job)))
      && (resume.Pages? && job.Pages? ==> r == Ok(Tagged(resume.docs, ResumeTag) + Tagged(job.docs, JobTag)))
  {
    var resume := ResumeLoad(resumePath, pdfLoader, textLoader);
    if !resume.Pages? {
      return Err(LoadErrorOf(resume));
    }
    var job := textLoader(jobDescPath);
    if !job.Pages? {
      return Err(LoadErrorOf(job));
    }
    var resumeDocs := resume.docs;
    var i := 0;
    while i < |resumeDocs|
      invariant 0 <= i <= |resumeDocs| && |resumeDocs| == |resume.docs|
      invariant forall k :: 0 <= k < |resumeDocs| ==>
        resumeDocs[k] == if k < i then Doc(resume.docs[k].content, Some(ResumeTag)) else resume.docs[k]
    {
      resumeDocs := resumeDocs[i := Doc(resumeDocs[i].content, Some(ResumeTag))];
      i := i + 1;
    }
    var jobDocs := job.docs;
    var j := 0;
    while j < |jobDocs|
      invariant 0 <= j <= |jobDocs| && |jobDocs| == |job.docs|
      invariant forall k :: 0 <= k < |jobDocs| ==>
        jobDocs[k] == if k < j then Doc(job.docs[k].content, Some(JobTag)) else job.docs[k]
    {
      jobDocs := jobDocs[j := Doc(jobDocs[j].content, Some(JobTag))];
      j := j + 1;
    }
    var documents: seq<Doc> := [];
    documents := documents + resumeDocs;
    documents := documents + jobDocs;
    assert resumeDocs == Tagged(resume.docs, ResumeTag);
    assert jobDocs == Tagged(job.docs, JobTag);
    assert documents == resumeDocs + jobDocs;
    return Ok(documents);
  }

  /** The texts of the pages tagged `tag`, in order. */
  function ContentsTagged(docs: seq<Doc>, tag: string): seq<string>
    decreases |docs|
  {
    if |docs| == 0 then []
    else (if docs[0].sourceType == Some(tag) then [docs[0].content] else [])
         + ContentsTagged(docs[1..], tag)
  }

  function Contents(docs: seq<Doc>): (r: seq<string>)
    ensures |r| == |docs| && forall i :: 0 <= i < |docs| ==> r[i] == docs[i].content
  {
    seq(|docs|, i requires 0 <= i < |docs| => docs[i].content)
  }

  datatype Content = Content(resumeContent: string, jobDescription: string)

  /** No page carries the tag, so none is selected. */
  lemma {:induction false} ContentsTaggedNone(docs: seq<Doc>, tag: string)
    ensures (forall i :: 0 <= i < |docs| ==> docs[i].sourceType != Some(tag))
            ==> ContentsTagged(docs, tag) == []
    decreases |docs|
  {
    if |docs| > 0 {
      assert forall i :: 0 <= i < |docs[1..]| ==> docs[1..][i] == docs[i + 1];
      ContentsTaggedNone(docs[1..], tag);
    }
  }

  /** `extract_content`: the texts of each source's pages joined with newlines; a source
      with no page among the documents gets the empty text. */
  function ExtractContent(docs: seq<Doc>): (c: Content)
    ensures (forall i :: 0 <= i < |docs| ==> docs[i].sourceType != Some(ResumeTag)) ==> c.resumeContent == ""
    ensures (forall i :: 0 <= i < |docs| ==> docs[i].sourceType != Some(JobTag)) ==> c.jobDescription == ""
  {
    ContentsTaggedNone(docs, ResumeTag);
    ContentsTaggedNone(docs, JobTag);
    Content(PyStr.Join("\n", ContentsTagged(docs, ResumeTag)),
            PyStr.Join("\n", ContentsTagged(docs, JobTag)))
  }

  /** Filtering distributes over concatenation, so order is kept. */
  lemma {:induction false} ContentsTaggedAppend(a: seq<Doc>, b: seq<Doc>, tag: string)
    ensures ContentsTagged(a + b, tag) == ContentsTagged(a, tag) + ContentsTagged(b, tag)
    decreases |a|
  {
    if |a| == 0 {
      assert a + b == b;
    } else {
      assert (a + b)[0] == a[0] && (a + b)[1..] == a[1..] + b;
      ContentsTaggedAppend(a[1..], b, tag);
    }
  }

  /** Pages tagged with neither source leave the extracted texts as they are. */
  lemma ExtractIgnoresUntagged(docs: seq<Doc>, others: seq<Doc>)
    requires forall i :: 0 <= i < |others| ==>
      others[i].sourceType != Some(ResumeTag) && others[i].sourceType != Some(JobTag)
    ensures ExtractContent(docs + others) == ExtractContent(docs)
  {
    ContentsTaggedAppend(docs, others, ResumeTag);
    ContentsTaggedAppend(docs, others, JobTag);
    ContentsTaggedNone(others, ResumeTag);
    ContentsTaggedNone(others, JobTag);
    assert ContentsTagged(docs, ResumeTag) + [] == ContentsTagged(docs, ResumeTag);
    assert ContentsTagged(docs, JobTag) + [] == ContentsTagged(docs, JobTag);
  }

  /** Pages tagged `tag` all come back; pages tagged otherwise are dropped. */
  lemma {:induction false} ContentsTaggedOf(docs: seq<Doc>, tag: string, other: string)
    requires tag != other
    ensures ContentsTagged(Tagged(docs, tag), tag) == Contents(docs)
    ensures ContentsTagged(Tagged(docs, other), tag) == []
    decreases |docs|
  {
    if |docs| > 0 {
      assert Tagged(docs, tag)[1..] == Tagged(docs[1..], tag);
      assert Tagged(docs, other)[1..] == Tagged(docs[1..], other);
      ContentsTaggedOf(docs[1..], tag, other);
    }
  }

  /** Extracting the content of what was loaded gives back each source's pages, joined. */
  lemma ExtractOfLoaded(resumeDocs: seq<Doc>, jobDocs: seq<Doc>)
    ensures ExtractContent(Tagged(resumeDocs, ResumeTag) + Tagged(jobDocs, JobTag))
         == Content(PyStr.Join("\n", Contents(resumeDocs)), PyStr.Join("\n", Contents(jobDocs)))
  {
    var rs, js := Tagged(resumeDocs, ResumeTag), Tagged(jobDocs, JobTag);
    ContentsTaggedAppend(rs, js, ResumeTag);
    ContentsTaggedAppend(rs, js, JobTag);
    ContentsTaggedOf(resumeDocs, ResumeTag, JobTag);
    ContentsTaggedOf(resumeDocs, JobTag, ResumeTag);
    ContentsTaggedOf(jobDocs, JobTag, ResumeTag);
    ContentsTaggedOf(jobDocs, ResumeTag, JobTag);
    assert Contents(resumeDocs) + [] == Contents(resumeDocs);
    assert [] + Contents(jobDocs) == Contents(jobDocs);
  }
}
