/** The two bullmq queues of the current generation, as multisets of jobs
    carrying the options `queueManager` passes. */
module Jobs {
  import opened Classify

  const ANALYSIS_JOB := "file-analysis"
  const PROCESSING_JOB := "file-processing"
  /** Five minutes, in milliseconds. */
  const PROCESSING_DELAY_MS: nat := 1000 * 60 * 5
  const PROCESSING_ATTEMPTS: nat := 3

  /** An analysis job: payload `{path}` and no options. */
  datatype AnalysisJob = AnalysisJob(name: string, path: string)

  /** A processing job: payload `{structure}`, a deduplication id, a delay
      and an attempt budget. */
  datatype ProcessingJob = ProcessingJob(name: string, structure: Structure, dedupId: string,
                                         delayMs: nat, attempts: nat)

  function ProcessingJobFor(s: Structure): ProcessingJob
  {
    ProcessingJob(PROCESSING_JOB, s, s.dir, PROCESSING_DELAY_MS, PROCESSING_ATTEMPTS)
  }

  /** Two processing jobs share a deduplication id exactly when their
      datasets share a directory, so at most one job per dataset directory
      is pending; the delay is five minutes and the budget three attempts. */
  lemma ProcessingJobOptions(s: Structure, t: Structure)
    ensures ProcessingJobFor(s).dedupId == ProcessingJobFor(t).dedupId <==> s.dir == t.dir
    ensures ProcessingJobFor(s).delayMs == 300000 && ProcessingJobFor(s).attempts == 3
    ensures ProcessingJobFor(s).structure == s
  {
  }

  class Queues {
    var analysis: multiset<AnalysisJob>
    var processing: multiset<ProcessingJob>

    constructor()
      ensures analysis == multiset{} && processing == multiset{}
    {
      analysis, processing := multiset{}, multiset{};
    }

    /** `enqueueForFileAnalysis`: one more analysis job for the path. */
    method EnqueueForFileAnalysis(path: string)
      modifies this
      ensures analysis == old(analysis) + multiset{AnalysisJob(ANALYSIS_JOB, path)}
      ensures processing == old(processing)
    {
      analysis := analysis + multiset{AnalysisJob(ANALYSIS_JOB, path)};
    }

    /** `enqueueForFileProcessing`: one more processing job for the dataset. */
    method EnqueueForFileProcessing(s: Structure)
      modifies this
      ensures processing == old(processing) + multiset{ProcessingJobFor(s)}
      ensures analysis == old(analysis)
    {
      processing := processing + multiset{ProcessingJobFor(s)};
    }
  }
}
