/** The records shared by the service and the page (types.ts). */
module Types {
  import opened JsValues

  /** The audit stage the user selects: the preliminary check (power of
      attorney and engineering conclusion) or the final check (inspection
      protocol, installation permit and supporting paperwork). */
  datatype AppStage = Preliminary | Final

  /** A staged upload. `base64` is the payload cut out of the data URL; it is
      `None` (JavaScript `undefined`) when the data URL held no comma. */
  datatype DocumentFile = DocumentFile(name: string, base64: Option<string>, mimeType: string)

  /** A displayed analysis: the text the service resolved to and when. */
  datatype AnalysisResult = AnalysisResult(text: string, timestamp: nat)
}
