/**
 * The values the dashboard keeps and the replies of the export service, as
 * the TypeScript interfaces of frontend/src/App.tsx declare them, and the
 * abstract outcome of one `fetch` call.
 */
module Entities {
  import opened Wrappers

  datatype ServiceState = Healthy | Unhealthy
  datatype StorageState = StorageOk | StorageError

  /** The body of `GET /health`. */
  datatype HealthStatus = HealthStatus(status: ServiceState, storage: StorageState)

  /** Progress of a running job, as the status endpoint reports it. */
  datatype Progress = Progress(percent: int, currentFile: int, totalFiles: int, stage: string, message: string)

  /** Result of a completed job. */
  datatype JobResult = JobResult(s3Key: string, downloadUrl: string, fileSize: int, processedFiles: int, totalFiles: int)

  /** One entry of the job list; `createdAt` is optional in the interface. */
  datatype ExportJob = ExportJob(
    jobId: string,
    status: string,
    progress: Option<Progress>,
    result: Option<JobResult>,
    error: Option<string>,
    createdAt: Option<string>)

  /** One entry of the error log. */
  datatype ErrorLog = ErrorLog(id: string, message: string, timestamp: string, traceId: Option<string>)

  /** The fields of the `POST /v1/export/create` reply the dashboard reads. */
  datatype CreateReply = CreateReply(jobId: string, status: string)

  /** The fields of the `GET /v1/export/status/{jobId}` reply the dashboard reads. */
  datatype StatusReply = StatusReply(status: string, progress: Option<Progress>, result: Option<JobResult>, error: Option<string>)

  /** The field of the `POST /v1/download/check` reply the dashboard reads; missing is `None`. */
  datatype CheckReply = CheckReply(message: Option<string>)

  /** The body of the create request: the parsed ids (`None` is `NaN`) and the fixed user. */
  datatype CreateRequest = CreateRequest(fileIds: seq<Option<int>>, userId: string)

  /** What `response.json()` gives: the decoded value, or a thrown parse error. */
  datatype Body<+T> = Parsed(value: T) | Malformed(reason: string)

  /**
   * What one `fetch` gives: a response with its status, status text and
   * body, or a thrown network error with its message.
   */
  datatype Fetch<+T> = Responded(status: nat, statusText: string, body: Body<T>) | NetworkError(reason: string)

  /** `response.ok`: the status is in the range 200 to 299. */
  predicate IsOk(status: nat)
  {
    200 <= status <= 299
  }
}
