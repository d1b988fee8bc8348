/** Optional values and results with an error channel, used by every module. */
module Wrappers {

  datatype Option<+T> = None | Some(value: T) {
    function GetOr(default: T): T {
      match this
      case Some(v) => v
      case None => default
    }
  }

  datatype Result<+T, +E> = Ok(value: T) | Err(error: E)
}

/**
 * The HTTP exceptions the services throw (NestJS BadRequestException and
 * NotFoundException). The human-readable message is kept as a structured
 * reason naming the violated constraint or the missing id.
 */
module Exceptions {

  datatype Reason =
    | InvalidFileType(mimetype: string)
    | FileTooLarge(maxBytes: int)
    | InvalidExtension(extension: string)
    | CorruptedFile
    | NotAnImage
    | NoFileProvided
    | UploadFailed(toCloud: bool)
    | GenreNotFound(genreId: int)
    | DirectorNotFound(directorId: int)

  datatype HttpError =
    | BadRequest(reason: Reason)
    | NotFound(entity: string, id: int)
}
