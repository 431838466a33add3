/**
 * The records the application moves around. `NasaApod` is the persisted
 * Astronomy Picture of the Day row; the Mars rover records are read-only
 * values deserialized from the upstream photo service; `RoverPhotoRequests`
 * is the web form that selects rover photos.
 */
module Entities {
  import opened Wrappers

  /**
   * One row of the `apod` table. `id` is missing until the store assigns it;
   * `copyright` and `hdurl` are nullable columns, the other four are NOT NULL.
   */
  datatype NasaApod = NasaApod(
    id: Option<int>,
    copyright: Option<string>,
    date: string,
    explanation: string,
    hdurl: Option<string>,
    title: string,
    url: string)

  datatype MarsRoverCamera = MarsRoverCamera(
    id: int,
    cameraType: string,
    roverId: int,
    cameraFullName: string)

  datatype MarsRover = MarsRover(
    id: int,
    roverName: string,
    roverLandingDate: string,
    roverLaunchDate: string,
    roverStatus: string,
    maxSol: int,
    maxDate: string,
    totalPhotos: int,
    roverCameras: seq<MarsRoverCamera>)

  datatype MarsRoverPhoto = MarsRoverPhoto(
    id: int,
    sol: int,
    marsRoverCamera: MarsRoverCamera,
    imageSource: string,
    earthDate: string,
    marsRover: MarsRover)

  /** The upstream photo response: the `photos` array, possibly empty. */
  datatype MarsRoverPhotosResponse = MarsRoverPhotosResponse(marsRoverPhotosList: seq<MarsRoverPhoto>)

  /** The rover photo form: rover type, the selected camera codes, and the earth date. */
  datatype RoverPhotoRequests = RoverPhotoRequests(roverType: string, roverCameras: seq<string>, earthDate: string)
}
