/** The closed-source document engine, seen only as an oracle: how many
    pages each input has when it can be opened, and which conversion jobs
    fail. */
module DocumentEngine {
  import opened Formats

  /** One call into the engine. */
  datatype Job =
    | CompressJob(input: string, output: string, quality: int)
    | HtmlToPdfJob(input: string, output: string)
    | SvgJob(input: string, output: string)
    | DocumentJob(format: DocFormat, input: string, output: string)
    | RenderPageJob(image: ImageFormat, input: string, page: nat)

  datatype Engine = Engine(pageCount: map<string, nat>, failing: set<Job>) {

    /** The engine can open `input` as a PDF document. */
    predicate Opens(input: string) {
      input in pageCount
    }

    /** The job completes without raising. */
    predicate Runs(job: Job) {
      job !in failing
    }
  }
}
