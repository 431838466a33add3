/**
 * The web (Thymeleaf) controller under `/nasa`. Views are returned by name,
 * together with the model attributes the page is given. Bean Validation's
 * verdict on a submitted form is the boolean `hasErrors`; the upstream GETs
 * are the inputs `fetched` and `fetch`. The `@PreAuthorize("hasRole(...)")`
 * checks run before the handler body: when they fail the handler does
 * nothing and `AccessDenied` is raised.
 */
module MvcController {
  import opened Wrappers
  import opened Strings
  import opened Entities
  import opened Errors
  import opened Repository
  import opened Service
  import RestController

  const ListApodsRedirect: string := "redirect:/nasa/list-apods"

  /** The `roverCameras` attribute of the rover form: one query segment per camera. */
  const RoverCameraParams: seq<string> :=
    ["&camera=fhaz", "&camera=rhaz", "&camera=mast", "&camera=chemcam", "&camera=mahli",
     "&camera=mardi", "&camera=navcam", "&camera=pancam", "&camera=minites"]

  /** The `allCameras` attribute of the rover form. */
  const AllCameras: seq<string> :=
    ["fhaz", "rhaz", "mast", "chemcam", "mahli", "mardi", "navcam", "pancam", "minites"]

  /** Entry i of the form's `roverCameras` list is `&camera=` followed by entry i of `allCameras`. */
  lemma CameraParamsMatchCodes()
    ensures |RoverCameraParams| == |AllCameras| == 9
    ensures forall i :: 0 <= i < 9 ==> RoverCameraParams[i] == RoverCameraParam + AllCameras[i]
  {
  }

  /** The web form offers exactly the cameras of the REST allow-list. */
  lemma AllCamerasAreAllowList()
    ensures AllCameras == RestController.RoverCameraCodes
  {
  }

  /** `buildApiUrl`: the rover photo query for every selected camera, joined with `&camera=`. */
  function BuildApiUrl(request: RoverPhotoRequests, apiKey: string): string
  {
    BaseUrl + request.roverType + FullUrl + request.earthDate +
    RoverCameraParam + Join(RoverCameraParam, request.roverCameras) + ApiKeyParam + apiKey
  }

  /** With k >= 1 cameras the URL carries one `&camera=` segment per camera, in list order. */
  lemma BuildApiUrlSegments(request: RoverPhotoRequests, apiKey: string)
    requires |request.roverCameras| >= 1
    ensures BuildApiUrl(request, apiKey) ==
      BaseUrl + request.roverType + FullUrl + request.earthDate +
      ConcatPrefixed(RoverCameraParam, request.roverCameras) + ApiKeyParam + apiKey
  {
    PrefixedJoin(RoverCameraParam, request.roverCameras);
  }

  /** With no camera selected the URL still carries `&camera=`, directly followed by `&api_key=`. */
  lemma BuildApiUrlNoCamera(request: RoverPhotoRequests, apiKey: string)
    requires request.roverCameras == []
    ensures BuildApiUrl(request, apiKey) ==
      BaseUrl + request.roverType + FullUrl + request.earthDate + "&camera=&api_key=" + apiKey
  {
  }

  /** Selecting every camera appends the form's `roverCameras` segments one after another. */
  lemma BuildApiUrlAllCameras(roverType: string, earthDate: string, apiKey: string)
    ensures BuildApiUrl(RoverPhotoRequests(roverType, AllCameras, earthDate), apiKey) ==
      BaseUrl + roverType + FullUrl + earthDate + Concat(RoverCameraParams) + ApiKeyParam + apiKey
  {
    BuildApiUrlSegments(RoverPhotoRequests(roverType, AllCameras, earthDate), apiKey);
    CameraParamsMatchCodes();
    ConcatPrefixedIsConcat(RoverCameraParam, AllCameras, RoverCameraParams);
  }

  /**
   * With one camera the web URL is the REST service's URL, except that the rover
   * type is used as given: the REST endpoint lower-cases it first, this one does not.
   */
  lemma BuildApiUrlOneCamera(request: RoverPhotoRequests, apiKey: string)
    requires |request.roverCameras| == 1
    ensures BuildApiUrl(request, apiKey) ==
      RoverPhotosUrl(request.roverType, request.earthDate, request.roverCameras[0], apiKey)
  {
  }

  /** `hasRole(role)`: the authorities include `ROLE_` + role. */
  predicate HasRole(authorities: set<string>, role: string)
  {
    "ROLE_" + role in authorities
  }

  /** A `SCOPE_`-prefixed authority, as a bearer token yields, does not satisfy `hasRole`. */
  lemma ScopeAuthorityIsNoRole(role: string, authorities: set<string>)
    requires forall a :: a in authorities ==> "SCOPE_" <= a
    ensures !HasRole(authorities, role)
  {
    var r := "ROLE_" + role;
    assert r[0] == 'R';
    assert !("SCOPE_" <= r);
  }

  /** The form page of `marsRover`: view name, then the `roverCameras` and `allCameras` attributes. */
  datatype RoverForm = RoverForm(view: string, roverCameras: seq<string>, allCameras: seq<string>)

  /** The reply of `showPhotos`: the view name and the upstream photos it shows, if it fetched any. */
  datatype PhotosPage = PhotosPage(view: string, photos: Option<seq<MarsRoverPhoto>>)

  /** `aPod` behind `hasRole('EMPLOYEE')`: the APOD page for the upstream record. */
  function MarsApod(authorities: set<string>, fetched: NasaApod): (r: Result<(string, NasaApod), Exception>)
    ensures r.Failure? <==> !HasRole(authorities, "EMPLOYEE")
    ensures r.Failure? ==> r.error == AccessDenied
    ensures r.Success? ==> r.value == ("nasa/apod", fetched)
  {
    if !HasRole(authorities, "EMPLOYEE") then Failure(AccessDenied) else Success(("nasa/apod", fetched))
  }

  /** `marsRover` behind `hasRole('EMPLOYEE')`: the rover form with both camera lists. */
  function MarsRover(authorities: set<string>): (r: Result<RoverForm, Exception>)
    ensures r.Failure? <==> !HasRole(authorities, "EMPLOYEE")
    ensures r.Failure? ==> r.error == AccessDenied
    ensures r.Success? ==> r.value.view == "nasa/index"
    ensures r.Success? ==> |r.value.roverCameras| == |r.value.allCameras| == 9
    ensures r.Success? ==> forall i :: 0 <= i < 9 ==> r.value.roverCameras[i] == RoverCameraParam + r.value.allCameras[i]
  {
    CameraParamsMatchCodes();
    if !HasRole(authorities, "EMPLOYEE") then Failure(AccessDenied)
    else Success(RoverForm("nasa/index", RoverCameraParams, AllCameras))
  }

  /** `showPhotos`: with binding errors, back to the form without fetching; otherwise the upstream photos. */
  function ShowPhotos(request: RoverPhotoRequests, hasErrors: bool, apiKey: string,
                      fetch: string -> MarsRoverPhotosResponse): (r: PhotosPage)
    ensures hasErrors ==> r == PhotosPage("nasa/index", None)
    ensures !hasErrors ==>
      r == PhotosPage("nasa/result", Some(fetch(BuildApiUrl(request, apiKey)).marsRoverPhotosList))
  {
    if hasErrors then PhotosPage("nasa/index", None)
    else
      var url := BuildApiUrl(request, apiKey);
      PhotosPage("nasa/result", Some(fetch(url).marsRoverPhotosList))
  }

  class NasaMvcController {
    const service: NasaApiServiceImpl
    /** The injected `nasa.api.key`. */
    const apiKey: string

    constructor (service: NasaApiServiceImpl, apiKey: string)
      ensures this.service == service && this.apiKey == apiKey
    {
      this.service := service;
      this.apiKey := apiKey;
    }

    /** `saveApod` (GET /nasa/save-apod-mvc): stores the fetched record, then redirects to the list. */
    method SaveApod(fetched: NasaApod) returns (view: string)
      requires service.repository.Valid()
      modifies service.repository
      ensures service.repository.Valid()
      ensures service.repository.rows == AfterSave(old(service.repository.rows), old(service.repository.nextId), fetched)
      ensures service.repository.nextId == NextIdAfterSave(old(service.repository.rows), old(service.repository.nextId), fetched)
      ensures view == ListApodsRedirect
    {
      service.Save(fetched);
      view := ListApodsRedirect;
    }

    /** `fetchAllApods` (GET /nasa/list-apods) behind `hasRole('ADMIN')`: the list page, empty or not. */
    function FetchAllApods(authorities: set<string>): (r: Result<(string, seq<NasaApod>), Exception>)
      reads service.repository
      requires service.repository.Valid()
      ensures r.Failure? <==> !HasRole(authorities, "ADMIN")
      ensures r.Failure? ==> r.error == AccessDenied
      ensures r.Success? ==> r.value.0 == "nasa/list-apods"
      ensures r.Success? ==> r.value.1 == service.FetchAllApodsMVC()
      ensures r.Success? ==> |r.value.1| == |service.repository.rows|
      ensures r.Success? ==> forall a :: a in r.value.1 <==> a in service.repository.rows.Values
    {
      if !HasRole(authorities, "ADMIN") then Failure(AccessDenied)
      else Success(("nasa/list-apods", service.FetchAllApodsMVC()))
    }

    /** `showFormToUpdateApod`: the update form for a stored record, or NotFound. */
    function ShowFormToUpdateApod(apodId: int): (r: Result<(string, NasaApod), Exception>)
      reads service.repository
      requires service.repository.Valid()
      ensures r.Success? <==> apodId in service.repository.rows
      ensures r.Success? ==> r.value == ("nasa/update-apod-form", service.repository.rows[apodId])
      ensures r.Failure? ==> r.error == NasaNotFound(NoApodWithIdMessage(apodId))
    {
      var found := service.FindNasaApodById(apodId);
      if found.Failure? then Failure(found.error) else Success(("nasa/update-apod-form", found.value))
    }

    /**
     * `saveApodForm`: with binding errors, back to the form and the store is untouched;
     * otherwise the whole submitted record is saved (a full overwrite) and the list is shown.
     */
    method SaveApodForm(apod: NasaApod, hasErrors: bool) returns (view: string)
      requires service.repository.Valid()
      modifies service.repository
      ensures service.repository.Valid()
      ensures hasErrors ==> view == "nasa/update-apod-form"
      ensures hasErrors ==> service.repository.rows == old(service.repository.rows)
      ensures hasErrors ==> service.repository.nextId == old(service.repository.nextId)
      ensures !hasErrors ==> view == ListApodsRedirect
      ensures !hasErrors ==>
        service.repository.rows == AfterSave(old(service.repository.rows), old(service.repository.nextId), apod)
      ensures !hasErrors ==>
        service.repository.nextId == NextIdAfterSave(old(service.repository.rows), old(service.repository.nextId), apod)
    {
      if hasErrors {
        return "nasa/update-apod-form";
      }
      service.Save(apod);
      return ListApodsRedirect;
    }

    /** `deleteApodMVC`: deletes, then redirects; an absent id propagates NotFound. */
    method DeleteApodMvc(apodId: int) returns (r: Result<string, Exception>)
      requires service.repository.Valid()
      modifies service.repository
      ensures service.repository.Valid()
      ensures apodId in old(service.repository.rows) ==>
        r == Success(ListApodsRedirect) && service.repository.rows == old(service.repository.rows) - {apodId}
      ensures apodId !in old(service.repository.rows) ==>
        r == Failure(NasaNotFound(NoApodWithIdMessage(apodId))) && service.repository.rows == old(service.repository.rows)
      ensures service.repository.nextId == old(service.repository.nextId)
    {
      var outcome := service.DeleteNasaApodById(apodId);
      if outcome.Fail? {
        return Failure(outcome.error);
      }
      return Success(ListApodsRedirect);
    }
  }
}
