/** One telemetry row, as the exporter reads it from the events table. */
module Telemetry {
  import opened Options

  // What a model.usage event reports; a payload that is not an object is None on the event.
  datatype Payload = Payload(
    provider: Option<string>, model: Option<string>, llmCalls: Option<int>,
    prompt: Option<int>, completion: Option<int>, total: Option<int>)

  datatype EventRow = EventRow(
    eventId: string, runId: Option<string>, attemptId: Option<string>,
    goalId: Option<string>, taskId: Option<string>, attempt: int,
    kind: Option<string>, quality: Option<string>, payload: Option<Payload>)
}
