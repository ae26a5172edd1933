/** The entities of the application (types.ts) and the values the browser hands it. */
module Types {
  import opened Wrappers

  /** The two-field output of one analysis: a summary and an ordered list of facts. */
  datatype AnalysisResult = AnalysisResult(resumo: string, listaFatos: seq<string>)

  /** One entry of the persisted history. */
  datatype AnalysisRecord = AnalysisRecord(
    id: string,
    timestamp: string,
    fileName: string,
    result: AnalysisResult)

  datatype ProcessingStatus = Idle | Processing | Succeeded | Failed

  /** A thrown JavaScript value, seen through its `message` property, which may be
      absent (a FileReader error event has none). */
  datatype Exception = Exception(message: Option<string>)

  /** A browser `File`: its display name and its MIME type (`file.type`). */
  datatype File = File(name: string, mimeType: string)
}
