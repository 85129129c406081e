/** The two recorders on the same run. */
module Recordings {
  import opened Machine
  import opened TraceLog
  import Recorder
  import SourceLevel
  import SourceRecorder

  /** Recorded at source level or at instruction level, a run shows the same
      receipt events, whatever the debug symbols and the configuration. */
  lemma SameReceiptEvents(d: SourceLevel.Debug, cfg: Recorder.Config, steps: seq<StepState>, final: seq<Receipt>)
    requires Growing([], steps) && SeenAtEnd([], steps) <= final
    ensures Filter(IsReceiptEvent, SourceRecorder.Log(d, steps, final)) ==
            Filter(IsReceiptEvent, Recorder.Recording(cfg, steps, final))
  {
    SourceRecorder.LogViews(d, steps, final);
    Recorder.RecordedReceipts(cfg, steps, final);
  }
}
