/**
 * The browser `File` as the font pipeline sees it: its name, its MIME type
 * (`File.type`, possibly empty) and its size in bytes. Its contents are only
 * read by the font decoder, which is not part of this model.
 */
module BrowserFile {
  datatype File = File(name: string, mimeType: string, size: nat)
}
