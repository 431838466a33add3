/**
 * The service layer over the APOD store: save, strict and lenient
 * list-all, find-by-id, delete-by-id, delete-all, and the Mars rover photo
 * request. The upstream HTTP GET is a parameter `fetch` from the request URL
 * to the deserialized response.
 */
module Service {
  import opened Wrappers
  import opened Entities
  import opened Errors
  import opened Repository

  const BaseUrl: string := "https://api.nasa.gov/mars-photos/api/v1/rovers/"
  const FullUrl: string := "/photos?earth_date="
  const RoverCameraParam: string := "&camera="
  const ApiKeyParam: string := "&api_key="

  /** The URL of one rover photo query, its four components inserted verbatim. */
  function RoverPhotosUrl(roverType: string, earthDate: string, camera: string, apiKey: string): (url: string)
  {
    BaseUrl + roverType + FullUrl + earthDate + RoverCameraParam + camera + ApiKeyParam + apiKey
  }

  /** The components can be read back from their positions in the rover URL: nothing is rewritten. */
  lemma RoverPhotosUrlVerbatim(roverType: string, earthDate: string, camera: string, apiKey: string)
    ensures var url := RoverPhotosUrl(roverType, earthDate, camera, apiKey);
      var r := |BaseUrl|;
      var d := r + |roverType| + |FullUrl|;
      var c := d + |earthDate| + |RoverCameraParam|;
      var k := c + |camera| + |ApiKeyParam|;
      && BaseUrl <= url
      && url[r..r + |roverType|] == roverType
      && url[d..d + |earthDate|] == earthDate
      && url[c..c + |camera|] == camera
      && url[k..] == apiKey
  {
  }

  class NasaApiServiceImpl {
    /** The injected `nasa.api.key`. */
    const apiKey: string
    const repository: NasaRepository

    constructor (apiKey: string, repository: NasaRepository)
      ensures this.apiKey == apiKey && this.repository == repository
    {
      this.apiKey := apiKey;
      this.repository := repository;
    }

    /** `deleteAllApods`: the store is left empty. */
    method DeleteAllApods()
      requires repository.Valid()
      modifies repository
      ensures repository.Valid()
      ensures repository.rows == map[] && repository.nextId == old(repository.nextId)
    {
      repository.DeleteAll();
    }

    /** `save`: upsert by id; no other row changes. */
    method Save(apod: NasaApod)
      requires repository.Valid()
      modifies repository
      ensures repository.Valid()
      ensures repository.rows == AfterSave(old(repository.rows), old(repository.nextId), apod)
      ensures repository.nextId == NextIdAfterSave(old(repository.rows), old(repository.nextId), apod)
    {
      var _ := repository.Save(apod);
    }

    /** `fetchAllApods`: all records, or NotFound exactly when the store is empty. */
    function FetchAllApods(): (r: Result<seq<NasaApod>, Exception>)
      reads repository
      requires repository.Valid()
      ensures r.Failure? <==> |repository.rows| == 0
      ensures r.Failure? ==> r.error == NasaNotFound(NoApodsMessage)
      ensures r.Success? ==> |r.value| == |repository.rows| > 0
      ensures r.Success? ==> forall a :: a in r.value <==> a in repository.rows.Values
    {
      var apods := repository.FindAll();
      if |apods| == 0 then Failure(NasaNotFound(NoApodsMessage)) else Success(apods)
    }

    /** `fetchAllApodsMVC`: never fails; exactly the stored records, possibly none. */
    function FetchAllApodsMVC(): (r: seq<NasaApod>)
      reads repository
      requires repository.Valid()
      ensures |r| == |repository.rows|
      ensures forall a :: a in r <==> a in repository.rows.Values
      ensures FetchAllApods().Success? ==> FetchAllApods().value == r
    {
      repository.FindAll()
    }

    /** `findNasaApodById`: the stored record, or NotFound naming the id; never null. */
    function FindNasaApodById(id: int): (r: Result<NasaApod, Exception>)
      reads repository
      requires repository.Valid()
      ensures r.Success? <==> id in repository.rows
      ensures r.Success? ==> r.value == repository.rows[id] && r.value.id == Some(id)
      ensures r.Failure? ==> r.error == NasaNotFound(NoApodWithIdMessage(id))
    {
      var result := repository.FindById(id);
      if result.Some? then Success(result.value) else Failure(NasaNotFound(NoApodWithIdMessage(id)))
    }

    /** `deleteNasaApodById`: removes exactly that id, or raises NotFound and changes nothing. */
    method DeleteNasaApodById(id: int) returns (r: Outcome<Exception>)
      requires repository.Valid()
      modifies repository
      ensures repository.Valid()
      ensures r.Fail? <==> id !in old(repository.rows)
      ensures r.Fail? ==> r.error == NasaNotFound(NoApodWithIdMessage(id))
      ensures r.Fail? ==> repository.rows == old(repository.rows)
      ensures r.Pass? ==> repository.rows == old(repository.rows) - {id}
      ensures repository.nextId == old(repository.nextId)
    {
      var result := FindNasaApodById(id);
      if result.Failure? {
        return Fail(result.error);
      }
      repository.DeleteById(id);
      return Pass;
    }

    /** `getRoverPhotos`: the upstream response for the query URL built from the arguments. */
    function GetRoverPhotos(roverType: string, earthDate: string, camera: string,
                            fetch: string -> MarsRoverPhotosResponse): MarsRoverPhotosResponse
    {
      fetch(RoverPhotosUrl(roverType, earthDate, camera, apiKey))
    }
  }
}
