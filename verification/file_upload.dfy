/**
 * `fileUploadService`: the checks a file passes before upload, and the form the
 * upload sends.
 */
module FileUpload {
  import opened Wrappers
  import opened Text

  /** A browser `File`: its name, MIME type and size in bytes. */
  datatype File = File(name: string, mimeType: string, size: nat)

  const MAX_FILE_SIZE: nat := 10 * 1024 * 1024

  /** `validateFileSize`: files up to and including 10 MiB pass. */
  function ValidateFileSize(file: File): (r: bool)
    ensures r <==> file.size <= 10_485_760
  {
    file.size <= MAX_FILE_SIZE
  }

  /** `validateFileType`: the MIME type is `text/xml`, or the name ends in `.xml` in any letter case. */
  function ValidateFileType(file: File): (r: bool)
    ensures r <==> file.mimeType == "text/xml"
                   || (|file.name| >= 4 && ToLower(file.name[|file.name| - 4..]) == ".xml")
  {
    var n := |file.name|;
    assert n >= 4 ==> ToLower(file.name)[n - 4..] == ToLower(file.name[n - 4..]);
    file.mimeType == "text/xml" || EndsWith(ToLower(file.name), ".xml")
  }

  /** The type check does not depend on the letter case of the name. */
  lemma {:induction false} FileTypeIgnoresCase(file: File)
    ensures ValidateFileType(file) == ValidateFileType(file.(name := ToUpper(file.name)))
  {
    var upper := ToUpper(file.name);
    assert ToLower(upper) == ToLower(file.name) by {
      forall i | 0 <= i < |file.name| ensures ToLower(upper)[i] == ToLower(file.name)[i] {
        var c := file.name[i];
        assert LowerChar(UpperChar(c)) == LowerChar(c);
      }
    }
  }

  datatype FormValue = FilePart(file: File) | TextPart(text: string)

  /** The multipart form of `uploadFile`: the file, then the client and interface ids as decimal text. */
  function UploadForm(file: File, clientId: int, interfaceId: int): (form: seq<(string, FormValue)>)
    ensures |form| == 3
    ensures form[0] == ("file", FilePart(file))
    ensures form[1].0 == "clientId" && form[1].1.TextPart? && ParseInt(form[1].1.text) == Some(clientId)
    ensures form[2].0 == "interfaceId" && form[2].1.TextPart? && ParseInt(form[2].1.text) == Some(interfaceId)
  {
    ParseIntOfIntToString(clientId);
    ParseIntOfIntToString(interfaceId);
    [("file", FilePart(file)), ("clientId", TextPart(IntToString(clientId))), ("interfaceId", TextPart(IntToString(interfaceId)))]
  }
}
