/** The response value of include/http_client/http_response.hpp. */
module HttpResponse {

  /** `headers` holds whole "Name: Value" lines; `body` holds the bytes, one char per byte. */
  datatype HTTPResponse = HTTPResponse(statusCode: int, headers: seq<string>, body: string)
}
