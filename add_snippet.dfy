/** The create form (page/AddSnippetPage.jsx): the form record and its field
    updates, the line and character counters, the tab key, the error text built
    from a rejected request, and the submission guard over the `loading` flag. */
module AddSnippet {
  import opened Wrappers
  import opened Text
  import opened Timers
  import opened Notification

  // ---------------------------------------------------------------------------
  // The form record

  /** The `name` attributes of the four inputs. */
  datatype Field = Title | Description | Category | Code

  datatype FormData = FormData(title: string, description: string, category: string, code: string)
  {
    function Get(f: Field): string {
      match f
      case Title => title
      case Description => description
      case Category => category
      case Code => code
    }

    /** `{ ...prev, [name]: value }`. */
    function With(f: Field, value: string): (r: FormData)
      ensures r.Get(f) == value
      ensures forall g :: g != f ==> r.Get(g) == Get(g)
    {
      match f
      case Title => this.(title := value)
      case Description => this.(description := value)
      case Category => this.(category := value)
      case Code => this.(code := value)
    }
  }

  const EmptyForm := FormData("", "", "", "")

  // ---------------------------------------------------------------------------
  // Counters and the tab key

  datatype CodeStats = CodeStats(lines: nat, chars: nat)

  /** `getCodeStats`: the number of pieces of `code.split('\n')` and the length
      in UTF-16 code units, as JavaScript counts it. */
  function GetCodeStats(code: string): CodeStats {
    CodeStats(|SplitOn(code, '\n')|, Utf16Length(code))
  }

  /** There is one line more than there are line feeds, so at least one even for
      empty code, and the lines joined back with line feeds are the code. */
  lemma CodeStatsFacts(code: string)
    ensures GetCodeStats(code).lines == CountChar(code, '\n') + 1
    ensures GetCodeStats(code).lines >= 1
    ensures |code| <= GetCodeStats(code).chars <= 2 * |code|
    ensures (forall k :: 0 <= k < |code| ==> InBasicPlane(code[k])) ==> GetCodeStats(code).chars == |code|
    ensures Join(SplitOn(code, '\n'), "\n") == code
  {
    SplitOnFacts(code, '\n');
    if forall k :: 0 <= k < |code| ==> InBasicPlane(code[k]) {
      Utf16LengthBasicPlane(code);
    }
  }

  /** The tab key replaces the selection `[start, end)` by two spaces and puts
      the cursor after them. The browser guarantees the selection bounds. */
  function InsertTab(value: string, start: nat, end: nat): (r: (string, nat))
    requires start <= end <= |value|
    ensures |r.0| == |value| - (end - start) + 2
    ensures r.0[..start] == value[..start]
    ensures r.0[start..start + 2] == "  "
    ensures r.0[start + 2..] == value[end..]
    ensures r.1 == start + 2
  {
    (value[..start] + "  " + value[end..], start + 2)
  }

  // ---------------------------------------------------------------------------
  // The error text of a rejected request

  /** A value of the `errors` object: a list of messages or a single one. */
  datatype ErrorValue = Messages(items: seq<string>) | Single(item: string)

  /** The JSON body of a rejected request: an optional `errors` object (its
      members in order) and an optional `error` string. */
  datatype ErrorBody = ErrorBody(errors: Option<seq<(string, ErrorValue)>>, error: Option<string>)

  /** How the request settled: a success status, another status with its body,
      or an exception from `fetch` or from reading the body as JSON. */
  datatype Response = Ok | NotOk(body: ErrorBody) | Thrown

  const SuccessText := "Snippet ajouté avec succès !"
  const FallbackErrorText := "Erreur lors de l'ajout"
  const ConnectionErrorText := "Erreur de connexion au serveur"

  function Values(members: seq<(string, ErrorValue)>): (r: seq<ErrorValue>)
    ensures |r| == |members|
    ensures forall k :: 0 <= k < |members| ==> r[k] == members[k].1
  {
    if members == [] then [] else [members[0].1] + Values(members[1..])
  }

  /** `Array.prototype.flat()`: lists are spread one level, single values kept. */
  function Flat(values: seq<ErrorValue>): seq<string> {
    if values == [] then []
    else
      (match values[0] case Messages(items) => items case Single(item) => [item])
      + Flat(values[1..])
  }

  /** Flattening concatenated values is concatenating their flattenings. */
  lemma {:induction false} FlatAppend(a: seq<ErrorValue>, b: seq<ErrorValue>)
    ensures Flat(a + b) == Flat(a) + Flat(b)
  {
    if a == [] {
      assert a + b == b;
    } else {
      assert (a + b)[1..] == a[1..] + b;
      FlatAppend(a[1..], b);
    }
  }

  /** The number of messages a value contributes. */
  function Size(v: ErrorValue): nat {
    match v case Messages(items) => |items| case Single(_) => 1
  }

  function TotalSize(values: seq<ErrorValue>): nat {
    if values == [] then 0 else Size(values[0]) + TotalSize(values[1..])
  }

  /** Every message of every value is kept, none is added. */
  lemma {:induction false} FlatSize(values: seq<ErrorValue>)
    ensures |Flat(values)| == TotalSize(values)
  {
    if values != [] {
      FlatSize(values[1..]);
    }
  }

  /** The message of a rejected request: the flattened `errors` values joined
      with ", " when `errors` is present, else a non-empty `error`, else the
      fallback text. */
  function ErrorText(body: ErrorBody): string {
    if body.errors.Some? then Join(Flat(Values(body.errors.value)), ", ")
    else if body.error.Some? && body.error.value != "" then body.error.value
    else FallbackErrorText
  }

  /** With `errors` present, the text is the messages of each field in turn,
      separated by ", "; the fields' messages are not merged or reordered, and
      a field with no message contributes nothing. */
  lemma ErrorTextOfTwoFields(f1: string, m1: seq<string>, f2: string, m2: seq<string>, error: Option<string>)
    ensures ErrorText(ErrorBody(Some([(f1, Messages(m1)), (f2, Messages(m2))]), error))
            == Join(m1 + m2, ", ")
  {
    var vs := [Messages(m1), Messages(m2)];
    assert Values([(f1, Messages(m1)), (f2, Messages(m2))]) == vs;
    FlatAppend([Messages(m1)], [Messages(m2)]);
    assert Flat([Messages(m1)]) == m1;
    assert Flat([Messages(m2)]) == m2;
    assert [Messages(m1)] + [Messages(m2)] == vs;
  }

  /** When both fields carry messages, the two fields' texts are glued with ", ". */
  lemma ErrorTextOfTwoNonEmptyFields(f1: string, m1: seq<string>, f2: string, m2: seq<string>, error: Option<string>)
    requires m1 != [] && m2 != []
    ensures ErrorText(ErrorBody(Some([(f1, Messages(m1)), (f2, Messages(m2))]), error))
            == Join(m1, ", ") + ", " + Join(m2, ", ")
  {
    ErrorTextOfTwoFields(f1, m1, f2, m2, error);
    JoinAppend(m1, m2, ", ");
  }

  /** The rejection of the create request with two "is required" fields. */
  lemma ErrorTextRequiredFields()
    ensures ErrorText(ErrorBody(Some([("title", Messages(["is required"])),
                                      ("category", Messages(["is required"]))]), None))
            == "is required, is required"
  {
    ErrorTextOfTwoNonEmptyFields("title", ["is required"], "category", ["is required"], None);
  }

  /** Without `errors`, an empty `error` counts as absent. */
  lemma ErrorTextWithoutErrors(body: ErrorBody)
    requires body.errors.None?
    ensures body.error.Some? && body.error.value != "" ==> ErrorText(body) == body.error.value
    ensures (body.error.None? || body.error.value == "") ==> ErrorText(body) == FallbackErrorText
    ensures ErrorText(body) != ""
  {
  }

  // ---------------------------------------------------------------------------
  // The form's state

  /** The callback the form schedules (the redirect after a success is not
      modelled). */
  datatype FormEvent = ClearFormMessage

  class AddSnippetForm {
    var formData: FormData
    var loading: bool
    var message: Message
    var timers: TimerQueue<FormEvent>
    /** The bodies of the create requests sent, oldest first. */
    var requests: seq<FormData>

    ghost predicate Valid()
      reads this
    {
      Wellformed(timers)
    }

    constructor ()
      ensures Valid()
      ensures formData == EmptyForm && !loading && message == NoMessage
      ensures timers == TimerQueue(0, []) && requests == []
    {
      formData := EmptyForm;
      loading := false;
      message := NoMessage;
      timers := Empty();
      requests := [];
    }

    /** `handleInputChange`: only the named field takes the new value. */
    method HandleInputChange(name: Field, value: string)
      modifies this`formData
      ensures formData.Get(name) == value
      ensures forall f :: f != name ==> formData.Get(f) == old(formData).Get(f)
    {
      formData := formData.With(name, value);
    }

    /** `handleKeyDown` in the code area, with the selection of the text area.
        Any key but Tab changes nothing; Tab puts two spaces in place of the
        selection and returns the new cursor position. */
    method HandleKeyDown(key: string, start: nat, end: nat) returns (cursor: Option<nat>)
      requires start <= end <= |formData.code|
      modifies this`formData
      ensures key != "Tab" ==> cursor == None && formData == old(formData)
      ensures key == "Tab" ==>
        && cursor == Some(start + 2)
        && formData == old(formData).(code := InsertTab(old(formData).code, start, end).0)
    {
      if key == "Tab" {
        var (newValue, pos) := InsertTab(formData.code, start, end);
        formData := formData.(code := newValue);
        cursor := Some(pos);
      } else {
        cursor := None;
      }
    }

    /** `showMessage`: fill the slot and schedule its clearing. */
    method ShowMessage(text: string, kind: string)
      requires Valid()
      modifies this`message, this`timers
      ensures Valid()
      ensures message == Message(text, kind)
      ensures timers == Schedule(old(timers), MessageDelay, ClearFormMessage)
    {
      ScheduleCancelsNothing(timers, MessageDelay, ClearFormMessage);
      message := Message(text, kind);
      timers := Schedule(timers, MessageDelay, ClearFormMessage);
    }

    /** The first half of `handleSubmit`, up to the request. While a request is
        in flight a submit does nothing; otherwise the flag goes up and the form
        is sent. */
    method HandleSubmit() returns (sent: bool)
      modifies this`loading, this`requests
      ensures sent == !old(loading)
      ensures loading
      ensures old(loading) ==> requests == old(requests)
      ensures !old(loading) ==> requests == old(requests) + [formData]
    {
      if loading {
        return false;
      }
      loading := true;
      requests := requests + [formData];
      sent := true;
    }

    /** The second half of `handleSubmit`, once the request has settled. A
        success posts the success message and empties the form; a rejection
        posts its error text and a thrown error the connection message, both
        leaving the form as it is. The flag comes down in every case. */
    method SubmitSettled(response: Response)
      requires Valid() && loading
      modifies this`loading, this`formData, this`message, this`timers
      ensures Valid() && !loading
      ensures timers == Schedule(old(timers), MessageDelay, ClearFormMessage)
      ensures response.Ok? ==>
        formData == EmptyForm && message == Message(SuccessText, "success")
      ensures response.NotOk? ==>
        formData == old(formData) && message == Message(ErrorText(response.body), "error")
      ensures response.Thrown? ==>
        formData == old(formData) && message == Message(ConnectionErrorText, "error")
    {
      match response {
        case Ok =>
          ShowMessage(SuccessText, "success");
          formData := EmptyForm;
        case NotOk(body) =>
          var errorMsg := ErrorText(body);
          ShowMessage(errorMsg, "error");
        case Thrown =>
          ShowMessage(ConnectionErrorText, "error");
      }
      loading := false;
    }

    /** The event loop runs the next due callback, if any: it clears the slot. */
    method FireNext() returns (fired: bool)
      requires Valid()
      modifies this`message, this`timers
      ensures Valid()
      ensures fired == (old(timers.pending) != [])
      ensures !fired ==> timers == old(timers) && message == old(message)
      ensures fired ==> timers == Pop(old(timers)).1 && message == NoMessage
    {
      fired := timers.pending != [];
      if fired {
        PopFacts(timers);
        timers := Pop(timers).1;
        message := NoMessage;
      }
    }

    /** Time passes without any callback falling due. */
    method Elapse(dt: nat)
      requires Valid()
      requires forall k :: 0 <= k < |timers.pending| ==> timers.pending[k].due >= timers.now + dt
      modifies this`timers
      ensures Valid()
      ensures timers == Advance(old(timers), dt)
    {
      timers := Advance(timers, dt);
    }
  }

  /** Two quick submits send one request; the flag is down again once it has
      settled. */
  method DoubleSubmitScenario(title: string) returns (requestsSent: nat, secondSent: bool, loadingAfter: bool)
    ensures requestsSent == 1 && !secondSent && !loadingAfter
  {
    var form := new AddSnippetForm();
    form.HandleInputChange(Title, title);
    var first := form.HandleSubmit();
    secondSent := form.HandleSubmit();
    form.SubmitSettled(Ok);
    requestsSent := |form.requests|;
    loadingAfter := form.loading;
  }

  /** The create request rejected with two "is required" fields: the error text
      joins both messages, the entered data stay, the flag comes down. */
  method RejectedSubmitScenario(title: string, code: string) returns (shown: Message, kept: FormData, loadingAfter: bool)
    ensures shown == Message("is required, is required", "error")
    ensures kept.title == title && kept.code == code
    ensures !loadingAfter
  {
    var form := new AddSnippetForm();
    form.HandleInputChange(Title, title);
    form.HandleInputChange(Code, code);
    var sent := form.HandleSubmit();
    var body := ErrorBody(Some([("title", Messages(["is required"])),
                                ("category", Messages(["is required"]))]), None);
    ErrorTextRequiredFields();
    form.SubmitSettled(NotOk(body));
    shown := form.message;
    kept := form.formData;
    loadingAfter := form.loading;
  }
}
