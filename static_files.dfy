/** The content type sendFile (app.js:182-212) sends with a static file: looked
    up by the file's extension, dot included and case kept, with text/plain for
    any extension the table does not list. */
module StaticFiles {

  const MimeTypes: map<string, string> := map[
    ".ico" := "image/x-icon",
    ".html" := "text/html",
    ".js" := "text/javascript",
    ".json" := "application/json",
    ".css" := "text/css",
    ".png" := "image/png",
    ".jpg" := "image/jpeg",
    ".wav" := "audio/wav",
    ".mp3" := "audio/mpeg",
    ".svg" := "image/svg+xml",
    ".pdf" := "application/pdf",
    ".doc" := "application/msword",
    ".mpd" := "application/dash+xml",  // MPEG-DASH manifest
    ".chk" := "video/webm"             // MPEG-DASH chunk
  ]

  /** `map[ext] || 'text/plain'`: the listed type, or text/plain exactly for the
      extensions the table does not list. */
  function ContentType(ext: string): (r: string)
    ensures ext in MimeTypes ==> r == MimeTypes[ext]
    ensures r == "text/plain" <==> ext !in MimeTypes
  {
    if ext in MimeTypes then MimeTypes[ext] else "text/plain"
  }

  /** Only `.html` files are served as text/html, so the extension decides
      whether a browser treats a static file as a page; `.HTML` or `.htm` are
      served as plain text. */
  lemma HtmlOnlyForHtmlFiles(ext: string)
    ensures ContentType(ext) == "text/html" <==> ext == ".html"
  {
  }

  /** Every file gets one of the fourteen listed types or text/plain. */
  lemma ContentTypeIsKnown(ext: string)
    ensures ContentType(ext) in MimeTypes.Values + {"text/plain"}
  {
  }
}
