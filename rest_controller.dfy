/**
 * The REST controller under `/api`: saving the current APOD, deleting and
 * partially updating a stored one, and the Mars rover photo request with its
 * case-insensitive camera allow-list. The Java class validates cameras
 * through a static `flag`; here it is a field of the (single) controller
 * object, reset and then set by `RoverCameras` exactly as the Java code does.
 */
module RestController {
  import opened Wrappers
  import opened Strings
  import opened Entities
  import opened Errors
  import opened Repository
  import opened Service

  /** The nine camera codes of the allow-list, in declared order. */
  const RoverCameraCodes: seq<string> :=
    ["fhaz", "rhaz", "mast", "chemcam", "mahli", "mardi", "navcam", "pancam", "minites"]

  /** A camera passes the allow-list when it equals one of the codes, ignoring case. */
  predicate IsRoverCamera(camera: string)
  {
    exists i :: 0 <= i < |RoverCameraCodes| && EqualsIgnoreCase(RoverCameraCodes[i], camera)
  }

  /** The codes are written in lower case. */
  lemma CodesAreLowerCase(i: int)
    requires 0 <= i < |RoverCameraCodes|
    ensures Lower(RoverCameraCodes[i]) == RoverCameraCodes[i]
  {
    assert NoUpper(RoverCameraCodes[i]) by {
      if i == 0 {} else if i == 1 {} else if i == 2 {} else if i == 3 {} else if i == 4 {}
      else if i == 5 {} else if i == 6 {} else if i == 7 {} else {}
    }
    LowerOfNoUpper(RoverCameraCodes[i]);
  }

  /** Acceptance depends only on the lower-cased camera: it must be one of the codes. */
  lemma IsRoverCameraIffLowerIsCode(camera: string)
    ensures IsRoverCamera(camera) <==> Lower(camera) in RoverCameraCodes
  {
    forall i | 0 <= i < |RoverCameraCodes|
      ensures EqualsIgnoreCase(RoverCameraCodes[i], camera) <==> Lower(camera) == RoverCameraCodes[i]
    {
      CodesAreLowerCase(i);
      EqualsIgnoreCaseIsLowerEquality(RoverCameraCodes[i], camera);
    }
    if Lower(camera) in RoverCameraCodes {
      var i :| 0 <= i < |RoverCameraCodes| && RoverCameraCodes[i] == Lower(camera);
      assert EqualsIgnoreCase(RoverCameraCodes[i], camera);
    }
  }

  /** Upper, lower and mixed case spellings of a code are accepted. */
  lemma CameraCaseIsIgnored()
    ensures IsRoverCamera("FHAZ") && IsRoverCamera("fhaz") && IsRoverCamera("FhAz")
  {
    assert EqualsIgnoreCase(RoverCameraCodes[0], "FHAZ");
    assert EqualsIgnoreCase(RoverCameraCodes[0], "fhaz");
    assert EqualsIgnoreCase(RoverCameraCodes[0], "FhAz");
  }

  /** A camera that is not on the list is refused. */
  lemma UnknownCameraIsRefused()
    ensures !IsRoverCamera("wideangle")
  {
    IsRoverCameraIffLowerIsCode("wideangle");
  }

  /** The message of the rejected rover request. */
  function CameraDoesNotExistMessage(camera: string): string
  {
    camera + " Camera Does Not Exist"
  }

  /** The confirmation of the save endpoint. */
  function SavedMessage(apod: NasaApod): string
  {
    "Successfully Saved" + "\n" + "Title: " + apod.title + "\n" + "Date: " + apod.date
  }

  /** The confirmation of the delete endpoint. */
  function DeletedMessage(id: int): string
  {
    "Delete Nasa Apod Id: " + IntToString(id)
  }

  /** The confirmation of the update endpoint. */
  function UpdatedMessage(id: int): string
  {
    "Updated Nasa Apod Id: " + IntToString(id)
  }

  /** The partial update: title and explanation come from the request, every other field stays. */
  function Patched(existing: NasaApod, request: NasaApod): (r: NasaApod)
    ensures r.title == request.title && r.explanation == request.explanation
    ensures r.(title := existing.title, explanation := existing.explanation) == existing
  {
    existing.(title := request.title, explanation := request.explanation)
  }

  class NasaApiController {
    const service: NasaApiServiceImpl
    /** The static `flag` that `RoverCameras` sets. */
    var flag: bool

    constructor (service: NasaApiServiceImpl)
      ensures this.service == service && !flag
    {
      this.service := service;
      flag := false;
    }

    /** `roverCameras`: sets `flag` when the camera is on the allow-list, never clears it. */
    method RoverCameras(roverCamera: string)
      modifies this`flag
      ensures flag == (old(flag) || IsRoverCamera(roverCamera))
    {
      var i := 0;
      while i < |RoverCameraCodes|
        invariant 0 <= i <= |RoverCameraCodes|
        invariant flag == old(flag)
        invariant forall j :: 0 <= j < i ==> !EqualsIgnoreCase(RoverCameraCodes[j], roverCamera)
      {
        if EqualsIgnoreCase(RoverCameraCodes[i], roverCamera) {
          flag := true;
          break;
        }
        i := i + 1;
      }
    }

    /**
     * `getRoverPhotos`: a camera on the allow-list queries the service with the rover
     * name lower-cased and date and camera unchanged; any other camera raises NotFound
     * without an upstream call.
     */
    method GetRoverPhotos(roverName: string, earthDate: string, roverCamera: string,
                          fetch: string -> MarsRoverPhotosResponse)
      returns (r: Result<MarsRoverPhotosResponse, Exception>)
      modifies this`flag
      ensures flag == IsRoverCamera(roverCamera)
      ensures IsRoverCamera(roverCamera) ==>
        r == Success(fetch(RoverPhotosUrl(Lower(roverName), earthDate, roverCamera, service.apiKey)))
      ensures !IsRoverCamera(roverCamera) ==> r == Failure(NasaNotFound(CameraDoesNotExistMessage(roverCamera)))
    {
      flag := false;
      RoverCameras(roverCamera);
      if flag {
        r := Success(service.GetRoverPhotos(Lower(roverName), earthDate, roverCamera, fetch));
      } else {
        r := Failure(NasaNotFound(CameraDoesNotExistMessage(roverCamera)));
      }
    }

    /** `saveApod`: stores the fetched record, then confirms with its title and date. */
    method SaveApod(fetched: NasaApod) returns (message: string)
      requires service.repository.Valid()
      modifies service.repository
      ensures service.repository.Valid()
      ensures service.repository.rows == AfterSave(old(service.repository.rows), old(service.repository.nextId), fetched)
      ensures service.repository.nextId == NextIdAfterSave(old(service.repository.rows), old(service.repository.nextId), fetched)
      ensures message == SavedMessage(fetched)
    {
      service.Save(fetched);
      message := SavedMessage(fetched);
    }

    /** `deleteApodById`: confirms only after a successful delete; an absent id propagates NotFound. */
    method DeleteApodById(apodId: int) returns (r: Result<string, Exception>)
      requires service.repository.Valid()
      modifies service.repository
      ensures service.repository.Valid()
      ensures apodId in old(service.repository.rows) ==>
        r == Success(DeletedMessage(apodId)) && service.repository.rows == old(service.repository.rows) - {apodId}
      ensures apodId !in old(service.repository.rows) ==>
        r == Failure(NasaNotFound(NoApodWithIdMessage(apodId))) && service.repository.rows == old(service.repository.rows)
      ensures service.repository.nextId == old(service.repository.nextId)
    {
      var outcome := service.DeleteNasaApodById(apodId);
      if outcome.Fail? {
        return Failure(outcome.error);
      }
      return Success(DeletedMessage(apodId));
    }

    /**
     * `updateApod`: an absent id raises the service's NotFound; a present one gets the
     * request's title and explanation, keeps every other field, and is confirmed.
     * The Java null check after the lookup is dead code: the lookup never returns null.
     */
    method UpdateApod(apodId: int, request: NasaApod) returns (r: Result<string, Exception>)
      requires service.repository.Valid()
      modifies service.repository
      ensures service.repository.Valid()
      ensures apodId !in old(service.repository.rows) ==>
        && r == Failure(NasaNotFound(NoApodWithIdMessage(apodId)))
        && service.repository.rows == old(service.repository.rows)
      ensures apodId in old(service.repository.rows) ==>
        && r == Success(UpdatedMessage(apodId))
        && service.repository.rows ==
           old(service.repository.rows)[apodId := Patched(old(service.repository.rows)[apodId], request)]
      ensures service.repository.nextId == old(service.repository.nextId)
    {
      var existing := service.FindNasaApodById(apodId);
      if existing.Failure? {
        return Failure(existing.error);
      }
      var updated := Patched(existing.value, request);
      service.Save(updated);
      return Success(UpdatedMessage(apodId));
    }
  }
}
