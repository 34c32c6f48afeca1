/** The class-level constants of the application's configuration object. */
module Config {

  /** Folder that receives uploads and, after decoding, reconstructed files. */
  const UploadFolder: string := "static/uploads"

  /** Extensions (without the dot, lower case) accepted for upload. */
  const AllowedExtensions: set<string> := {
    "txt", "pdf", "png", "jpg", "jpeg", "gif", "zip",
    "tar", "gz", "bz2", "doc", "docx", "xls", "xlsx",
    "mp3", "mp4", "avi", "mov"
  }

  /** Extensions refused for upload. */
  const DeniedExtensions: set<string> := {"exe", "sh", "bat", "cmd", "msi"}

  /** The container formats a round may use, in the order of the list. */
  const CompressionAlgorithms: seq<string> := ["zip", "tar", "gzip", "tar.gz", "tar.bz2"]

  /** Cosmetic extensions a round may give its output. */
  const ExtensionPool: seq<string> := [
    ".txt", ".jpg", ".pdf", ".docx", ".mp3", ".mp4",
    ".png", ".xlsx", ".zip", ".tar", ".gz"
  ]

  /** The allow and deny sets share no element. */
  lemma AllowedDeniedDisjoint()
    ensures AllowedExtensions !! DeniedExtensions
  {
  }
}
