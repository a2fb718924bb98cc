/**
 * The error values the modelled code can return. Go returns formatted
 * messages; each message here is a constructor carrying the values the
 * message interpolates.
 */
module Failures {

  type Path = seq<string>

  datatype Error =
    | UnknownTool(tool: string)                      // Registry.Get miss
    | AlreadyInstalled(tool: string, version: string)
    | NotInstalled(tool: string, version: string)
    | MkdirFailed(dir: Path)                         // os.MkdirAll failure
    | DownloadFailed(url: string)                    // network error or non-200 status
    | ExtractFailed(url: string)                     // malformed archive or I/O failure
    | UnsupportedArchive(tag: string)
    | LinkFailed(link: Path)                         // os.Symlink failure
    | RemoveFailed(dir: Path)                        // os.RemoveAll failure
    | ManifestNotFound(start: Path)
    | ManifestParse(file: Path, line: nat, text: string)
    | ManifestReadFailed(file: Path)               // use --local: an existing manifest cannot be read
    | ManifestWriteFailed(file: Path)
    | ListUnsupported(tool: string)                  // empty list_url
    | ListFormatUnsupported(format: string)
    | FetchFailed                                    // HTTP error or bad JSON in a listing
    | DoctorFoundErrors
    | DevBuild                                       // self update from a dev build
    | ReleaseFetchFailed
    | NoAssetForPlatform(platform: string)
    | SelfUpdateStep(step: string)                   // temp dir, download, executable path or symlink resolution
    | UnsupportedArchiveFile(name: string)           // self update: neither .tar.gz nor .zip
    | ArchiveReadFailed(name: string)              // self update: gzip, tar, zip or file I/O failure while extracting
    | NoBinaryInArchive
    | BackupFailed(exec: string)
    | CopyFailed(exec: string)
    | ChmodFailed(exec: string)
}
