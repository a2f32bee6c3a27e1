/** The uniform response envelope `{status, success, message, error, data}`
    every handler of the journal application returns. */
module ResponseEnvelope {
  import opened Common
  import opened Entities

  /** What the handlers put in `data` (declared `Object`). */
  datatype Data =
    | EntryData(entry: Entry)
    | EntriesData(entries: seq<Entry>)
    | UserData(user: User)
    | UsersData(users: seq<User>)

  /** The value of a Response object: its five fields. */
  datatype Envelope = Envelope(
    status: int,
    success: bool,
    message: Option<string>,
    error: Option<string>,
    data: Option<Data>)

  /** `new Response(status, success, message)`: error and data stay null. */
  function Of3(status: int, success: bool, message: string): (r: Envelope)
    ensures r.status == status && r.success == success && r.message == Some(message)
    ensures r.error == None && r.data == None
  {
    Envelope(status, success, Some(message), None, None)
  }

  /** `new Response(status, success, message, error)`: data stays null. */
  function Of4(status: int, success: bool, message: string, error: Option<string>): (r: Envelope)
    ensures r.status == status && r.success == success && r.message == Some(message)
    ensures r.error == error && r.data == None
  {
    Envelope(status, success, Some(message), error, None)
  }

  /** `new Response(status, success, message, error, data)`: all five as given. */
  function Of5(status: int, success: bool, message: string, error: Option<string>, data: Option<Data>): (r: Envelope)
    ensures r.status == status && r.success == success && r.message == Some(message)
    ensures r.error == error && r.data == data
  {
    Envelope(status, success, Some(message), error, data)
  }

  /** A `ResponseEntity`: the HTTP status and the envelope as body. */
  datatype Reply = Reply(httpStatus: int, body: Envelope)

  /** The mutable Response object, with its getters and setters. */
  class Response {
    var status: int
    var success: bool
    var message: Option<string>
    var error: Option<string>
    var data: Option<Data>

    /** The current field values. */
    function Value(): (v: Envelope)
      reads this
    {
      Envelope(status, success, message, error, data)
    }

    constructor Make3(status: int, success: bool, message: string)
      ensures Value() == Of3(status, success, message)
    {
      this.status := status;
      this.success := success;
      this.message := Some(message);
      this.error := None;
      this.data := None;
    }

    constructor Make5(status: int, success: bool, message: string, error: Option<string>, data: Option<Data>)
      ensures Value() == Of5(status, success, message, error, data)
    {
      this.status := status;
      this.success := success;
      this.message := Some(message);
      this.error := error;
      this.data := data;
    }

    constructor Make4(status: int, success: bool, message: string, error: Option<string>)
      ensures Value() == Of4(status, success, message, error)
    {
      this.status := status;
      this.success := success;
      this.message := Some(message);
      this.error := error;
      this.data := None;
    }

    function GetStatus(): (s: int)
      reads this
      ensures s == Value().status
    {
      status
    }

    method SetStatus(status: int)
      modifies this
      ensures Value() == old(Value()).(status := status)
    {
      this.status := status;
    }

    function IsSuccess(): (b: bool)
      reads this
      ensures b == Value().success
    {
      success
    }

    method SetSuccess(success: bool)
      modifies this
      ensures Value() == old(Value()).(success := success)
    {
      this.success := success;
    }

    function GetMessage(): (m: Option<string>)
      reads this
      ensures m == Value().message
    {
      message
    }

    method SetMessage(message: Option<string>)
      modifies this
      ensures Value() == old(Value()).(message := message)
    {
      this.message := message;
    }

    function GetError(): (e: Option<string>)
      reads this
      ensures e == Value().error
    {
      error
    }

    method SetError(error: Option<string>)
      modifies this
      ensures Value() == old(Value()).(error := error)
    {
      this.error := error;
    }

    function GetData(): (d: Option<Data>)
      reads this
      ensures d == Value().data
    {
      data
    }

    method SetData(data: Option<Data>)
      modifies this
      ensures Value() == old(Value()).(data := data)
    {
      this.data := data;
    }
  }

  /** Each getter returns what the constructor or the matching setter last
      stored; a setter leaves the other four fields as they were. */
  method SettersAndGetters(status: int, message: string, data: Data) returns (r: Response)
    ensures fresh(r)
    ensures r.GetStatus() == status && !r.IsSuccess() && r.GetMessage() == Some(message)
    ensures r.GetError() == None && r.GetData() == Some(data)
  {
    r := new Response.Make3(200, true, message);
    r.SetStatus(status);
    r.SetSuccess(false);
    r.SetData(Some(data));
  }
}
