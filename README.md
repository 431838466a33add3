# NASA APOD and Mars Rover service — a Dafny model

This is a model of the core of a Spring Boot application. The application stores NASA's Astronomy Picture Of
The Day (APOD) records and forwards Mars rover photo queries to NASA. The model covers:

- the APOD table and its repository (`Repository`);
- the service layer over it (`Service`);
- the REST controller under `/api` (`RestController`);
- the web controller under `/nasa` (`MvcController`);
- the URL authorization table of the security filter chain (`SecurityConfiguration`);
- JWT issue at `/authenticate` and `/get-token` (`JwtAuthentication`);
- the global exception handler (`ExceptionHandler`).

Exceptions are values of `Errors.Exception`, and operations that can throw return `Result`/`Outcome` (`Wrappers`).
`Strings` holds the Java string behaviour that the core relies on: ASCII `toLowerCase`/`equalsIgnoreCase`,
`String.join`, splitting on a character, and `Integer.toString`.

Things the source gets from outside become inputs:

- **NASA responses.** The fetched APOD record is a parameter `fetched`. The rover photo response is a function
  `fetch` from the request URL.
- **The clock.** The two clock readings taken when a token is issued are parameters, and so is the error-response
  timestamp.
- **Signing.** The JWT signing step is a function `encode` from claims to a string.
- **Bean Validation.** Its verdict on a submitted form is the boolean `hasErrors`.
- **The caller.** The caller's authorities are a set of strings.

The database is a class `Repository.NasaRepository`:

- It has a map from primary key to record and the AUTO_INCREMENT counter `nextId`.
- Its invariant is that every record stores its own key as its `id`, and every key lies below the counter.
- `save` is an upsert. A record whose id is set and stored replaces that row. Any other record is inserted under
  a fresh id.
- `deleteById` on an absent key changes nothing.
- `findAll` lists rows in primary-key order. The program itself promises no order there; the model fixes one
  (see "Left out").

The service, the controllers and the table are classes whose methods change that map. Read-only operations are
functions over it.

The authorization table is read the way the framework reads it:

- Rows are checked in order and the first matching row decides.
- The login page and the login processing URL (any method) and POST to the logout URL are permitted ahead of the
  declared rows. CSRF protection stays enabled, under which the logout URL is matched for POST only.
- A pattern `/x/**` matches `/x` and every path starting with `/x/`. This matching rule is an assumption about
  the framework.

`SecurityConfiguration.DecideIsReference` proves the ordered table equal to a policy grouped by route: public
routes, the EMPLOYEE-gated reads, the ADMIN-gated DELETE/PUT, and "authenticated" for the rest.

A bearer token's authorities are `SCOPE_` followed by each space-separated entry of its `scope` claim. The resource
server's default converter works this way, and that too is an assumption about the framework.

The model follows the code as written, including three places where a reader might expect otherwise:

- **ADMIN on the employee routes.** The request-matcher rows for the employee routes list only the two EMPLOYEE
  authorities (`SecurityConfiguration.java:149-155`). An ADMIN-only caller is therefore forbidden there; see
  `SecurityConfiguration.AdminAloneCannotRead`.
- **The rover route.** `/api/rover/...` has no row of its own, so any authenticated caller may use it, whatever
  its authorities; see `SecurityConfiguration.RoverRouteNeedsOnlyAuthentication`.
- **The null check in `updateApod`.** The check at `NasaApiController.java:260-261` cannot fire, because the
  lookup throws instead of returning null. An absent id therefore gets the service's "No Apod Found With Id: "
  message.

## Model

| member | source | states |
|---|---|---|
| Repository.Stored | src/main/java/com/openapi/nasa/daorepo/NasaRepository.java:31 | the record `save` stores always has an id; that id is already stored exactly when the call is an update; all other fields are the caller's |
| Repository.SaveUpserts | src/main/java/com/openapi/nasa/service/NasaApiService.java:50-57 | after `save` the keys are the old keys plus the stored id, that row holds the stored record, every other row is unchanged, and the row count grows by one exactly on insert |
| Repository.SaveKeepsInvariant | src/main/java/com/openapi/nasa/daorepo/NasaRepository.java:31 | `save` keeps the table invariant (ids are keys, keys below the counter) |
| Repository.SaveThenFindRoundTrip | src/main/java/com/openapi/nasa/daorepo/NasaRepository.java:31-32 | a fetched record without id is inserted under the counter's value, a key not stored before, and reading that row back gives the record with only the id added |
| Repository.InKeyOrder | src/main/java/com/openapi/nasa/daorepo/NasaRepository.java:33 | the listing of the keys in a range holds only stored records under their own keys in that range, with strictly ascending ids (the order the model fixes) |
| Repository.InKeyOrderComplete | src/main/java/com/openapi/nasa/daorepo/NasaRepository.java:33 | every stored key in the range contributes its record to the listing |
| Repository.InKeyOrderLength | src/main/java/com/openapi/nasa/daorepo/NasaRepository.java:33 | the listing has one entry per stored key in the range |
| Repository.Where | src/main/java/com/openapi/nasa/daorepo/NasaRepository.java:47-48 | the filter keeps exactly the elements satisfying the query condition |
| Repository.WhereKeepsOrder | src/main/java/com/openapi/nasa/daorepo/NasaRepository.java:47-48 | filtering keeps the relative order, so a key-ordered listing stays key-ordered |
| Repository.NasaRepository.FindAll | src/main/java/com/openapi/nasa/daorepo/NasaRepository.java:33 | `findAll` returns every stored record, once each (length equals the row count), in ascending id order (the order the model fixes) |
| Repository.NasaRepository.Count | src/main/java/com/openapi/nasa/daorepo/NasaRepository.java:36 | `count` equals the length of `findAll` |
| Repository.NasaRepository.FindById | src/main/java/com/openapi/nasa/daorepo/NasaRepository.java:32 | present exactly when the id is stored, and then it is that row, whose id is the key |
| Repository.NasaRepository.FindByDate | src/main/java/com/openapi/nasa/daorepo/NasaRepository.java:47-48 | exactly the stored records whose date equals the argument, in id order (the order the model fixes) |
| Repository.NasaRepository.FindApodByCopyright | src/main/java/com/openapi/nasa/daorepo/NasaRepository.java:60-61 | with at most one matching row: null exactly when no row has that copyright, otherwise the stored record that has it |
| Repository.NasaRepository.Save | src/main/java/com/openapi/nasa/daorepo/NasaRepository.java:31 | the new rows and counter are those of the upsert, the returned record is the stored one, and the invariant holds |
| Repository.NasaRepository.DeleteById | src/main/java/com/openapi/nasa/daorepo/NasaRepository.java:34 | exactly that key is removed (nothing on an absent key); the counter is unchanged |
| Repository.NasaRepository.DeleteAll | src/main/java/com/openapi/nasa/daorepo/NasaRepository.java:29 | the table is empty afterwards; the counter is not reset |
| Service.RoverPhotosUrlVerbatim | src/main/java/com/openapi/nasa/service/NasaApiServiceImpl.java:213-219 | the rover URL starts with the base URL and the rover type, earth date, camera and API key sit verbatim at their fixed positions |
| Service.RoverPhotosUrl | src/main/java/com/openapi/nasa/service/NasaApiServiceImpl.java:213-219 | the rover query URL: base URL, rover type, "/photos?earth_date=", date, "&camera=", camera, "&api_key=", key (no contract of its own; `RoverPhotosUrlVerbatim` states the components sit at fixed positions) |
| Service.NasaApiServiceImpl.DeleteAllApods | src/main/java/com/openapi/nasa/service/NasaApiServiceImpl.java:103-105 | the store is empty afterwards |
| Service.NasaApiServiceImpl.Save | src/main/java/com/openapi/nasa/service/NasaApiServiceImpl.java:117-120 | the store after `save` is the repository upsert of the record |
| Service.NasaApiServiceImpl.FetchAllApods | src/main/java/com/openapi/nasa/service/NasaApiServiceImpl.java:132-141 | fails with NotFound("No Apods Found. Try Adding Apod To The Database") exactly when the store is empty, otherwise returns all stored records, once each |
| Service.NasaApiServiceImpl.FetchAllApodsMVC | src/main/java/com/openapi/nasa/service/NasaApiServiceImpl.java:201-203 | never fails; exactly the stored records, possibly none, and the same list the strict version returns when that one succeeds |
| Service.NasaApiServiceImpl.FindNasaApodById | src/main/java/com/openapi/nasa/service/NasaApiServiceImpl.java:153-164 | succeeds exactly for a stored id, with that row; otherwise NotFound("No Apod Found With Id: " + id) |
| Service.NasaApiServiceImpl.DeleteNasaApodById | src/main/java/com/openapi/nasa/service/NasaApiServiceImpl.java:177-190 | fails exactly on an absent id, with the NotFound message and the store unchanged; otherwise exactly that id is removed |
| Service.NasaApiServiceImpl.GetRoverPhotos | src/main/java/com/openapi/nasa/service/NasaApiServiceImpl.java:213-219 | the response is what the upstream call returns for the URL built from the request and the injected API key (no contract of its own; the URL is `RoverPhotosUrl`) |
| Errors.NoApodWithIdMessageInjective | src/main/java/com/openapi/nasa/service/NasaApiServiceImpl.java:161 | two ids give the same not-found message exactly when they are equal |
| Errors.NoApodWithIdMessage | src/main/java/com/openapi/nasa/service/NasaApiServiceImpl.java:161 | the not-found message: "No Apod Found With Id: " followed by the decimal id (no contract of its own; `NoApodWithIdMessageInjective` states it names the id) |
| Strings.Lower | src/main/java/com/openapi/nasa/rest/NasaApiController.java:368 | `toLowerCase` keeps the length and lower-cases each character (ASCII) |
| Strings.EqualsIgnoreCaseIsLowerEquality | src/main/java/com/openapi/nasa/rest/NasaApiController.java:297 | `equalsIgnoreCase` holds exactly when the lower-cased strings are equal |
| Strings.PrefixedJoin | src/main/java/com/openapi/nasa/mvcController/NasaMvcController.java:329 | for a non-empty list, the separator followed by `String.join(sep, xs)` is the concatenation of sep + x over the list |
| Strings.SplitOnJoin | src/main/java/com/openapi/nasa/security/JwtAuthenticationResource.java:143-145 | splitting a space-joined non-empty list of space-free strings on the space gives the list back |
| Strings.IntToStringInjective | src/main/java/com/openapi/nasa/service/NasaApiServiceImpl.java:161 | the decimal rendering of an int determines the int |
| RestController.IsRoverCameraIffLowerIsCode | src/main/java/com/openapi/nasa/rest/NasaApiController.java:291-302 | a camera passes the allow-list exactly when its lower-cased form is one of the nine codes |
| RestController.IsRoverCamera | src/main/java/com/openapi/nasa/rest/NasaApiController.java:291-302 | the allow-list test: some of the nine codes equals the camera ignoring case (no contract of its own; `IsRoverCameraIffLowerIsCode` characterises it) |
| RestController.CameraCaseIsIgnored | src/main/java/com/openapi/nasa/rest/NasaApiController.java:293-297 | "FHAZ", "fhaz" and "FhAz" all pass the allow-list |
| RestController.UnknownCameraIsRefused | src/main/java/com/openapi/nasa/rest/NasaApiController.java:293-297 | "wideangle" does not pass the allow-list |
| RestController.Patched | src/main/java/com/openapi/nasa/rest/NasaApiController.java:263-265 | the patched record has the request's title and explanation, and restoring those two fields gives back the existing record |
| RestController.NasaApiController.RoverCameras | src/main/java/com/openapi/nasa/rest/NasaApiController.java:291-302 | the flag afterwards is its old value or'ed with "the camera is on the allow-list": set on a match, never cleared |
| RestController.NasaApiController.GetRoverPhotos | src/main/java/com/openapi/nasa/rest/NasaApiController.java:352-374 | the flag ends equal to the current camera's verdict; a listed camera yields the upstream response for the URL with the rover name lower-cased and date and camera unchanged; any other camera yields NotFound(camera + " Camera Does Not Exist") |
| RestController.NasaApiController.SaveApod | src/main/java/com/openapi/nasa/rest/NasaApiController.java:148-157 | the fetched record is upserted and the reply is "Successfully Saved\nTitle: " + title + "\nDate: " + date |
| RestController.NasaApiController.DeleteApodById | src/main/java/com/openapi/nasa/rest/NasaApiController.java:219-222 | a stored id is removed and confirmed with "Delete Nasa Apod Id: " + id; an absent id propagates NotFound and the store is unchanged |
| RestController.NasaApiController.UpdateApod | src/main/java/com/openapi/nasa/rest/NasaApiController.java:256-272 | an absent id gives the service's NotFound and no change; a present id's row gets the request's title and explanation, every other field stays, and the reply is "Updated Nasa Apod Id: " + id |
| MvcController.CameraParamsMatchCodes | src/main/java/com/openapi/nasa/mvcController/NasaMvcController.java:263-264 | both form lists have nine entries and entry i of `roverCameras` is "&camera=" + entry i of `allCameras` |
| MvcController.AllCamerasAreAllowList | src/main/java/com/openapi/nasa/mvcController/NasaMvcController.java:264 | the web form offers the same nine cameras, in the same order, as the REST allow-list |
| MvcController.BuildApiUrlSegments | src/main/java/com/openapi/nasa/mvcController/NasaMvcController.java:324-334 | with k >= 1 cameras the URL carries one "&camera=" + camera segment per camera, in list order, between the date and "&api_key=" |
| MvcController.BuildApiUrl | src/main/java/com/openapi/nasa/mvcController/NasaMvcController.java:324-334 | the web form's rover query URL, cameras joined with "&camera=" (no contract of its own; the `BuildApiUrl*` lemmas state its shape) |
| MvcController.BuildApiUrlNoCamera | src/main/java/com/openapi/nasa/mvcController/NasaMvcController.java:329-333 | with no camera the URL still contains "&camera=" directly followed by "&api_key=" |
| MvcController.BuildApiUrlAllCameras | src/main/java/com/openapi/nasa/mvcController/NasaMvcController.java:324-334 | selecting all of `allCameras` gives the URL with the form's `roverCameras` segments concatenated |
| MvcController.BuildApiUrlOneCamera | src/main/java/com/openapi/nasa/mvcController/NasaMvcController.java:332-333 | with one camera the web URL is the REST service's URL with the rover type as given, not lower-cased |
| MvcController.ScopeAuthorityIsNoRole | src/main/java/com/openapi/nasa/mvcController/NasaMvcController.java:134 | a caller holding only SCOPE_-prefixed authorities never satisfies `hasRole` |
| MvcController.HasRole | src/main/java/com/openapi/nasa/mvcController/NasaMvcController.java:134 | `hasRole(r)` in `@PreAuthorize` holds exactly when the authorities contain "ROLE_" + r (no contract of its own; `ScopeAuthorityIsNoRole` is its property) |
| MvcController.MarsApod | src/main/java/com/openapi/nasa/mvcController/NasaMvcController.java:133-144 | AccessDenied exactly without ROLE_EMPLOYEE; otherwise the view "nasa/apod" with the fetched record |
| MvcController.MarsRover | src/main/java/com/openapi/nasa/mvcController/NasaMvcController.java:256-273 | AccessDenied exactly without ROLE_EMPLOYEE; otherwise "nasa/index" with the two nine-entry camera lists, entry i of one being "&camera=" + entry i of the other |
| MvcController.ShowPhotos | src/main/java/com/openapi/nasa/mvcController/NasaMvcController.java:289-312 | binding errors give "nasa/index" with no fetch; otherwise "nasa/result" with the photos fetched from the built URL |
| MvcController.NasaMvcController.SaveApod | src/main/java/com/openapi/nasa/mvcController/NasaMvcController.java:108-118 | the fetched record is upserted and the view is "redirect:/nasa/list-apods" |
| MvcController.NasaMvcController.FetchAllApods | src/main/java/com/openapi/nasa/mvcController/NasaMvcController.java:159-170 | AccessDenied exactly without ROLE_ADMIN; otherwise "nasa/list-apods" with the service's `fetchAllApodsMVC` list itself: one entry per stored record, each stored record present, possibly none |
| MvcController.NasaMvcController.ShowFormToUpdateApod | src/main/java/com/openapi/nasa/mvcController/NasaMvcController.java:185-195 | a stored id gives "nasa/update-apod-form" with its record; otherwise the service's NotFound |
| MvcController.NasaMvcController.SaveApodForm | src/main/java/com/openapi/nasa/mvcController/NasaMvcController.java:209-222 | binding errors give "nasa/update-apod-form" with the store unchanged; otherwise the whole submitted record is upserted and the view is the list redirect |
| MvcController.NasaMvcController.DeleteApodMvc | src/main/java/com/openapi/nasa/mvcController/NasaMvcController.java:234-241 | a stored id is removed and the list redirect returned; an absent id propagates NotFound and the store is unchanged |
| SecurityConfiguration.FirstMatch | src/main/java/com/openapi/nasa/security/SecurityConfiguration.java:131-162 | the chosen row matches and is the first matching one; no row chosen means none matches |
| SecurityConfiguration.FirstMatchAppend | src/main/java/com/openapi/nasa/security/SecurityConfiguration.java:131-162 | over two consecutive blocks of rows, the first block's match wins, else the second block's |
| SecurityConfiguration.Decide | src/main/java/com/openapi/nasa/security/SecurityConfiguration.java:131-187 | the decision of the whole chain: the first matching row's access applied to the caller; an anonymous caller is never forbidden, only permitted or asked to authenticate |
| SecurityConfiguration.LoginBlock | src/main/java/com/openapi/nasa/security/SecurityConfiguration.java:165-186 | the login rows match exactly the login page and the login processing URL with any method and /logout with POST, and permit |
| SecurityConfiguration.StaticBlock | src/main/java/com/openapi/nasa/security/SecurityConfiguration.java:134 | the static-resource rows match exactly the five subtrees, any method, and permit |
| SecurityConfiguration.TokenBlock | src/main/java/com/openapi/nasa/security/SecurityConfiguration.java:137 | the token row matches exactly POST /authenticate, and permits |
| SecurityConfiguration.DocBlock | src/main/java/com/openapi/nasa/security/SecurityConfiguration.java:141-146 | the documentation rows match exactly the six documentation routes, and permit |
| SecurityConfiguration.EmployeeBlock | src/main/java/com/openapi/nasa/security/SecurityConfiguration.java:149-155 | the employee rows match exactly GET on the home page, /api/apod, /api/apods, /api/save-apod and the /api/apod subtree, and require an EMPLOYEE authority |
| SecurityConfiguration.AdminBlock | src/main/java/com/openapi/nasa/security/SecurityConfiguration.java:158-159 | the admin rows match exactly DELETE and PUT on the /api/apod subtree, and require an ADMIN authority |
| SecurityConfiguration.FallbackBlock | src/main/java/com/openapi/nasa/security/SecurityConfiguration.java:162 | the last row matches every request and requires authentication |
| SecurityConfiguration.DecideIsReference | src/main/java/com/openapi/nasa/security/SecurityConfiguration.java:131-171 | the ordered first-match table decides every request as the grouped policy does: public, else login needed for anonymous callers, else the EMPLOYEE or ADMIN gate, else permit |
| SecurityConfiguration.EveryRequestMatchesARow | src/main/java/com/openapi/nasa/security/SecurityConfiguration.java:162 | some row matches every request |
| SecurityConfiguration.GatedRoutesAreNotPublic | src/main/java/com/openapi/nasa/security/SecurityConfiguration.java:134-159 | no employee- or admin-gated request is also a public one |
| SecurityConfiguration.PublicRoutesArePermitted | src/main/java/com/openapi/nasa/security/SecurityConfiguration.java:134-146 | static resources, POST /authenticate, the documentation routes, the login routes and POST /logout are permitted to any caller |
| SecurityConfiguration.AnonymousCallers | src/main/java/com/openapi/nasa/security/SecurityConfiguration.java:131-171 | an anonymous caller is permitted exactly on the public routes and asked to authenticate everywhere else |
| SecurityConfiguration.EmployeeRoutesGate | src/main/java/com/openapi/nasa/security/SecurityConfiguration.java:149-155 | on the employee routes an authenticated caller is permitted iff it holds SCOPE_ROLE_EMPLOYEE or ROLE_EMPLOYEE, else forbidden |
| SecurityConfiguration.AdminRoutesGate | src/main/java/com/openapi/nasa/security/SecurityConfiguration.java:158-159 | DELETE/PUT under /api/apod is permitted to an authenticated caller iff it holds SCOPE_ROLE_ADMIN or ROLE_ADMIN, else forbidden |
| SecurityConfiguration.AdminAloneCannotRead | src/main/java/com/openapi/nasa/security/SecurityConfiguration.java:152-155 | a caller holding only ROLE_ADMIN (or only SCOPE_ROLE_ADMIN) is forbidden on the employee routes |
| SecurityConfiguration.EmployeeAloneCannotModify | src/main/java/com/openapi/nasa/security/SecurityConfiguration.java:158-159 | a caller holding only ROLE_EMPLOYEE (or only SCOPE_ROLE_EMPLOYEE) is forbidden to DELETE or PUT under /api/apod |
| SecurityConfiguration.FallbackNeedsOnlyAuthentication | src/main/java/com/openapi/nasa/security/SecurityConfiguration.java:162 | a request outside every named row is permitted iff the caller is authenticated, whatever its authorities |
| SecurityConfiguration.RoverRouteNeedsOnlyAuthentication | src/main/java/com/openapi/nasa/security/SecurityConfiguration.java:162 | GET on any /api/rover path is permitted to every authenticated caller and needs authentication otherwise |
| SecurityConfiguration.FirstAccessIsTableAccess | src/main/java/com/openapi/nasa/security/SecurityConfiguration.java:131-171 | every request matches a row, and the first matching row carries the access of the request's group (public, employee-gated, admin-gated, or authenticated) |
| SecurityConfiguration.GetTokenIsNotPublic | src/main/java/com/openapi/nasa/security/SecurityConfiguration.java:131-171 | GET /get-token is matched by none of the public, employee or admin rows |
| SecurityConfiguration.GetTokenNeedsAuthentication | src/main/java/com/openapi/nasa/security/SecurityConfiguration.java:137-138 | POST /authenticate is public, while GET /get-token falls to the authenticated-only row |
| SecurityConfiguration.LogoutNeedsPost | src/main/java/com/openapi/nasa/security/SecurityConfiguration.java:171-186 | POST /logout is permitted to anyone; any other verb on /logout is permitted to authenticated callers only and asks anonymous ones to authenticate |
| SecurityConfiguration.LogoutIsUnlistedForOtherVerbs | src/main/java/com/openapi/nasa/security/SecurityConfiguration.java:131-187 | /logout with a verb other than POST matches no public, employee or admin row |
| SecurityConfiguration.DeleteOnListRouteNeedsOnlyAuthentication | src/main/java/com/openapi/nasa/security/SecurityConfiguration.java:153-162 | DELETE /api/apods is outside the /api/apod subtree, so it needs authentication but no ADMIN authority |
| JwtAuthentication.CreateScope | src/main/java/com/openapi/nasa/security/JwtAuthenticationResource.java:141-146 | the scope is the empty string for no authorities and the authority itself for one |
| JwtAuthentication.ScopeRoundTrip | src/main/java/com/openapi/nasa/security/JwtAuthenticationResource.java:141-146 | for one or more authorities, none containing a space, splitting the scope on spaces gives them back in order |
| JwtAuthentication.CreateClaims | src/main/java/com/openapi/nasa/security/JwtAuthenticationResource.java:118-124 | the claim set has exactly the keys iss, iat, exp, sub and scope; iss is "self", sub the user's name, scope the joined authorities, iat the first clock reading and exp the second reading plus 1800 seconds |
| JwtAuthentication.TokenLifetime | src/main/java/com/openapi/nasa/security/JwtAuthenticationResource.java:120-121 | exp - iat is at least 1800 seconds when the clock does not run backwards, and exactly 1800 seconds when the two readings coincide |
| JwtAuthentication.GetToken | src/main/java/com/openapi/nasa/security/JwtAuthenticationResource.java:94-128 | the plain token of `getToken`, built by `createToken`, is the encoder applied to exactly the claim set `CreateClaims` describes |
| JwtAuthentication.Authenticate | src/main/java/com/openapi/nasa/security/JwtAuthenticationResource.java:76-79 | the response wraps exactly the token `getToken` returns |
| JwtAuthentication.BearerAuthorities | src/main/java/com/openapi/nasa/security/SecurityConfiguration.java:187 | every authority a bearer token confers starts with SCOPE_ |
| JwtAuthentication.BearerOfIssuedToken | src/main/java/com/openapi/nasa/security/JwtAuthenticationResource.java:123 | the bearer of an issued token holds SCOPE_ + a for each authority a of the user, and nothing else |
| JwtAuthentication.BearerOfTokenWithoutAuthorities | src/main/java/com/openapi/nasa/security/JwtAuthenticationResource.java:141-146 | a token issued to a user without authorities confers none |
| JwtAuthentication.BearerHoldsRole | src/main/java/com/openapi/nasa/security/JwtAuthenticationResource.java:123 | the bearer holds SCOPE_ + role exactly when the user held role |
| JwtAuthentication.EmployeeTokenPassesEmployeeRoutes | src/main/java/com/openapi/nasa/security/SecurityConfiguration.java:149-155 | the bearer of a token issued to a ROLE_EMPLOYEE user is permitted on every employee route |
| JwtAuthentication.AdminOnlyToken | src/main/java/com/openapi/nasa/security/SecurityConfiguration.java:152-159 | the bearer of a token issued to an ADMIN who is not an EMPLOYEE may DELETE under /api/apod but is forbidden to GET there |
| ExceptionHandler.Handle | src/main/java/com/openapi/nasa/exceptionHandler/NasaGlobalExceptionHandler.java:49-146 | NotFound and every unhandled exception give a JSON body whose status equals the HTTP status (404 / 400) and whose message is the exception's; AccessDenied gives the view "nasa/access-denied" and NoResourceFound the login view "nasa/custom-login-2"; message-not-writable gives 500 with an empty JSON body |
| ExceptionHandler.MessageOf | src/main/java/com/openapi/nasa/exceptionHandler/NasaGlobalExceptionHandler.java:61-89 | the message a JSON error body carries: the NotFound message, or the catch-all exception's possibly null message (no contract of its own; `Handle` states its use) |
| ExceptionHandler.StatusOf | src/main/java/com/openapi/nasa/exceptionHandler/NasaGlobalExceptionHandler.java:49-146 | the status a handler sets: 404, 400 or 500, and none for the two view handlers (no contract of its own; `Handle` states its use) |
| ExceptionHandler.HandleSeparatesKinds | src/main/java/com/openapi/nasa/exceptionHandler/NasaGlobalExceptionHandler.java:49-146 | equal responses come from exceptions of the same status and message, and NotFound is never confused with the catch-all |
| ExceptionHandler.JsonBodyStatusAgrees | src/main/java/com/openapi/nasa/exceptionHandler/NasaGlobalExceptionHandler.java:49-93 | a JSON error body's status equals the response status, which is 404 or 400 |
| ExceptionHandler.MissingApodIsNotFound | src/main/java/com/openapi/nasa/exceptionHandler/NasaGlobalExceptionHandler.java:50-65 | looking up a missing id ends in 404 with body message "No Apod Found With Id: " + id, and different ids give different bodies |
| ExceptionHandler.EmptyStoreIsNotFound | src/main/java/com/openapi/nasa/exceptionHandler/NasaGlobalExceptionHandler.java:50-65 | the strict list on an empty store ends in 404 with the fixed "No Apods Found" message |

## Left out

- Outbound NASA calls (`getAstronomyPictureOfTheDay`, the rover photo GETs) are I/O. The fetched record and the
  `fetch` function are parameters, and URL encoding by the HTTP client is not modelled.
- The pass-through endpoints `getApod`, `getAllApods`, `getApodById` and `homePage` only return the service's or
  a constant result. `getAllApods` is `Service.NasaApiServiceImpl.FetchAllApods`, and `getApodById` is
  `FindNasaApodById`.
- `LoginController` returns constant view names and is not part of this model.
- RSA key generation, the JWK source, JWT encoding and signature checking are foreign library calls. `encode`
  is a parameter.
- Token validation on the way back (signature, expiry check) is excluded as well. `BearerAuthorities` assumes a
  valid token.
- The JDBC user and role queries are database access. Callers arrive with their authority set.
- `Repository.NasaRepository.FindAll`: `findAll` and the date query have no ORDER BY. The program leaves their
  order to the database, and the model fixes ascending primary-key order. This applies equally to `FindByDate`,
  `InKeyOrder` and every list built from them.
- `Repository.NasaRepository.Save` follows the documented upsert of `NasaApiService.java:50-57`. A record whose
  id is set but not stored is inserted under a fresh id. What really happens in that case depends on the JPA
  provider: a recent Hibernate merge of such a detached entity throws an optimistic-locking exception instead.
- CSRF protection enters the model only through its effect on the logout row, which matches POST alone. The CSRF
  token check itself is not modelled.
- The following framework mechanics are out because they belong to the framework: filter-chain internals, CSRF,
  sessions, cookies, headers and HTTP Basic. The same goes for turning a decision into 401, 403 or a redirect.
  The model stops at Permit / NeedsAuthentication / Forbidden.
- Framework path matching is reduced to exact paths and `/x/**` subtrees. Query strings, trailing slashes and
  path normalisation are not modelled.
- Bean Validation is the boolean `hasErrors`. Thymeleaf rendering and `@Transactional` are not modelled.
- `MvcController.ShowPhotos`: the result page's other model attributes are not modelled: the request, the
  upper-case camera list at `NasaMvcController.java:306` and the earth date. Only the view name and the photos
  are.
- `MvcController.MarsRover`: the empty form-backing `RoverPhotoRequests` object is not modelled.
- Concurrency is not modelled: the data race on the static `flag` and the check-then-act gap in delete and
  update. The model is single-threaded, and `flag` is a field of the one controller object.
- Case handling is ASCII-only. Full Unicode case folding in `toLowerCase`/`equalsIgnoreCase` is not modelled.
- Records have no null fields except the optional copyright, hdurl and id. A null `roverCameras` list, which would
  throw in `buildApiUrl`, is not modelled.
- `Repository.NasaRepository.FindApodByCopyright` is stated under the precondition that at most one row matches.
  With several matches the query throws a non-unique-result exception, which is not modelled.
- Integers are unbounded. The 32-bit `Integer` id wrap-around, AUTO_INCREMENT exhaustion and `long` timestamp
  overflow are not modelled.
- Entities: the data carriers `MarsRover`, `MarsRoverCamera`, `MarsRoverPhoto`, `MarsRoverPhotosResponse`,
  `RoverPhotoRequests`, `NasaErrorResponse` and `NasaNotFoundException` are datatypes only. The APOD record
  follows the schema in `GettingStartedGuide.java:251-259`.
- `JwtAuthentication.BearerAuthorities` splits the scope on every space. Java's `String.split` also drops trailing
  empty entries. The two agree whenever no authority is empty or contains a space, which the lemmas about issued
  tokens require.
