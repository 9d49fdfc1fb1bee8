/** Creating background jobs: the request handed to IBackgroundJobFactory and the factory itself. */
module Jobs {
  import opened Wrappers
  import opened Errors
  import opened Platform

  /**
   * A CreateContext as the modelled code fills it: the job, the EnqueuedState's reason and
   * queue (`None` when a null queue was assigned), and the "RecurringJobId" parameter.
   */
  datatype CreateRequest = CreateRequest(job: Job, queue: Option<string>, reason: string, recurringJobId: string)

  /**
   * What the factory makes of a request: the new job's id (`None` for a null job or a null
   * id, which is how a filter vetoes a creation), or the exception it throws.
   */
  type Assign = CreateRequest -> Result<Option<string>, Error>

  /**
   * IBackgroundJobFactory. `created` logs, in order, every request the factory returned
   * from; its outcome for each request is its own business, given by `assign`.
   */
  class BackgroundJobFactory {
    var created: seq<CreateRequest>
    const assign: Assign

    constructor (assign: Assign)
      ensures created == [] && this.assign == assign
    {
      created := [];
      this.assign := assign;
    }

    /** IBackgroundJobFactory.Create, returning `backgroundJob?.Id`, or the exception it throws. */
    method Create(request: CreateRequest) returns (jobId: Result<Option<string>, Error>)
      modifies this
      ensures jobId == assign(request)
      ensures created == old(created) + (if jobId.Success? then [request] else [])
    {
      jobId := assign(request);
      if jobId.Success? {
        created := created + [request];
      }
    }
  }
}
