/** The upload area (components/FileUpload.tsx): which selections reach the
    application's `onFileSelect`, and the `isDragging` highlight flag. */
module FileUpload {
  import opened Types

  const PDF_TYPE: string := "application/pdf"
  const TEXT_TYPE: string := "text/plain"
  const DOCX_TYPE: string := "application/vnd.openxmlformats-officedocument.wordprocessingml.document"

  /** The `validTypes` list the component declares; the gate does not consult it. */
  const VALID_TYPES: seq<string> := [PDF_TYPE, TEXT_TYPE, DOCX_TYPE]

  const REJECTION_MESSAGE: string := "Por favor, envie um arquivo PDF ou TXT válido."

  /** What a handler does with a selection: hand the file to `onFileSelect`, show an
      alert, or nothing. */
  datatype Action = Forward(file: File) | Alert(message: string) | Ignore

  /** The two MIME types the gate lets through. */
  predicate IsAccepted(mimeType: string) {
    mimeType == PDF_TYPE || mimeType == TEXT_TYPE
  }

  /** `validateAndUpload`: forwards the file exactly when its type is PDF or plain
      text, and otherwise alerts without forwarding. */
  function ValidateAndUpload(file: File): (a: Action)
    ensures a.Forward? <==> IsAccepted(file.mimeType)
    ensures a.Forward? ==> a.file == file
    ensures !a.Forward? ==> a == Alert(REJECTION_MESSAGE)
  {
    if file.mimeType == PDF_TYPE || file.mimeType == TEXT_TYPE then Forward(file)
    else Alert(REJECTION_MESSAGE)
  }

  /** `handleFileInput`: only the first chosen file is looked at; no files, no
      action. It has no loading check: while loading the input element is disabled
      and the browser sends no change event. */
  function FileInputAction(files: seq<File>): (a: Action)
    ensures files == [] ==> a == Ignore
    ensures files != [] ==> a == ValidateAndUpload(files[0])
  {
    if |files| > 0 then ValidateAndUpload(files[0]) else Ignore
  }

  /** `handleDrop`: a drop while loading does nothing; otherwise as for the input. */
  function DropAction(isLoading: bool, files: seq<File>): (a: Action)
    ensures isLoading ==> a == Ignore
    ensures !isLoading ==> a == FileInputAction(files)
  {
    if isLoading then Ignore else FileInputAction(files)
  }

  /** A drop forwards a file only when not loading, and then it is the first file
      dropped and is of an accepted type. */
  lemma DropForwardsFirstAccepted(isLoading: bool, files: seq<File>)
    ensures DropAction(isLoading, files).Forward? <==>
      !isLoading && files != [] && IsAccepted(files[0].mimeType)
    ensures DropAction(isLoading, files).Forward? ==> DropAction(isLoading, files).file == files[0]
  {
  }

  /** The DOCX type appears in `validTypes`, yet the gate rejects it. */
  lemma DocxRejected(name: string)
    ensures DOCX_TYPE in VALID_TYPES
    ensures ValidateAndUpload(File(name, DOCX_TYPE)) == Alert(REJECTION_MESSAGE)
  {
  }

  /** The drop zone's state. */
  class DropZone {
    var isDragging: bool

    constructor ()
      ensures !isDragging
    {
      isDragging := false;
    }

    method HandleDragOver()
      modifies this
      ensures isDragging
    {
      isDragging := true;
    }

    method HandleDragLeave()
      modifies this
      ensures !isDragging
    {
      isDragging := false;
    }

    /** Clears the highlight on every drop, including one ignored while loading. */
    method HandleDrop(isLoading: bool, files: seq<File>) returns (a: Action)
      modifies this
      ensures !isDragging
      ensures a == DropAction(isLoading, files)
    {
      isDragging := false;
      if isLoading {
        return Ignore;
      }
      a := FileInputAction(files);
    }

    /** Leaves the highlight as it is. */
    method HandleFileInput(files: seq<File>) returns (a: Action)
      ensures a == FileInputAction(files)
    {
      a := FileInputAction(files);
    }
  }
}
