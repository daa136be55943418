/** The create page: a form holding a question, an editable list of option
    fields and a login flag, checked by the client schema `formSchema` and
    sent to the poll-creation endpoint as a JSON body. */
module CreatePage {
  import opened Common
  import PollRoute

  /** One entry of the `options` field array (`{ value: string }`). */
  datatype OptionField = OptionField(value: string)

  const MinQuestionLength: nat := 5
  const MinOptions: nat := 2

  /** `formSchema`: a question of at least five characters, at least two
      options, and no empty option. */
  predicate FormValid(question: string, fields: seq<OptionField>) {
    |question| >= MinQuestionLength && |fields| >= MinOptions &&
    forall i :: 0 <= i < |fields| ==> |fields[i].value| >= 1
  }

  /** `values.options.map(o => o.value)`. */
  function Values(fields: seq<OptionField>): (r: seq<string>)
    ensures |r| == |fields|
    ensures forall i :: 0 <= i < |fields| ==> r[i] == fields[i].value
  {
    if fields == [] then [] else [fields[0].value] + Values(fields[1..])
  }

  /** The body `onSubmit` sends. */
  function SubmitBody(question: string, fields: seq<OptionField>, requireLogin: bool): Json {
    PollRoute.PollBody(PollRoute.PollInput(question, Values(fields), requireLogin))
  }

  /** The remove button is rendered only while there are more than two
      options. */
  predicate RemoveShown(count: nat) {
    count > MinOptions
  }

  class CreateForm {
    var question: string
    var fields: seq<OptionField>
    var requireLogin: bool

    /** `defaultValues`: an empty question, two empty options, no login. */
    constructor ()
      ensures question == "" && fields == [OptionField(""), OptionField("")] && !requireLogin
      ensures !FormValid(question, fields)
    {
      question := "";
      fields := [OptionField(""), OptionField("")];
      requireLogin := false;
    }

    method EditQuestion(text: string)
      modifies this`question
      ensures question == text
    {
      question := text;
    }

    method EditOption(index: int, text: string)
      requires 0 <= index < |fields|
      modifies this`fields
      ensures fields == old(fields)[index := OptionField(text)]
    {
      fields := fields[index := OptionField(text)];
    }

    method SetRequireLogin(checked: bool)
      modifies this`requireLogin
      ensures requireLogin == checked
    {
      requireLogin := checked;
    }

    /** `append({ value: "" })`: one empty option at the end, the others as
        they were. */
    method Append()
      modifies this`fields
      ensures fields == old(fields) + [OptionField("")]
    {
      fields := fields + [OptionField("")];
    }

    /** `remove(index)` from the trash button of option `index`. The button
        exists only while more than two options are shown, so with two or
        fewer nothing can be removed; the list never drops below two. */
    method Remove(index: int)
      requires 0 <= index < |fields|
      modifies this`fields
      ensures RemoveShown(old(|fields|)) ==> fields == old(fields[..index] + fields[index + 1..])
      ensures !RemoveShown(old(|fields|)) ==> fields == old(fields)
      ensures old(|fields|) >= MinOptions ==> |fields| >= MinOptions
    {
      if RemoveShown(|fields|) {
        fields := fields[..index] + fields[index + 1..];
      }
    }

    /** Submitting: `zodResolver` stops an invalid form before `onSubmit`;
        a valid one is sent as a JSON body. */
    method Submit() returns (body: Option<Json>)
      ensures body.Some? <==> FormValid(question, fields)
      ensures body.Some? ==> body.value == SubmitBody(question, fields, requireLogin)
    {
      if FormValid(question, fields) {
        body := Some(SubmitBody(question, fields, requireLogin));
      } else {
        body := None;
      }
    }
  }

  // ----- What the form promises -----

  /** The default form cannot be submitted. */
  lemma DefaultFormInvalid()
    ensures !FormValid("", [OptionField(""), OptionField("")])
  {
  }

  /** Any form the client schema accepts, the server schema accepts too, and
      it reads back the question, the option values in the same order and
      number, and the login flag. */
  lemma {:induction false} ClientValidImpliesServerValid(question: string, fields: seq<OptionField>, requireLogin: bool)
    requires FormValid(question, fields)
    ensures PollRoute.ValidatePoll(SubmitBody(question, fields, requireLogin)) ==
      Some(PollRoute.PollInput(question, Values(fields), requireLogin))
  {
    var options := Values(fields);
    assert PollRoute.AcceptablePoll(question, options) by {
      forall i | 0 <= i < |options| ensures |options[i]| >= 1 {
        assert options[i] == fields[i].value;
      }
    }
    PollRoute.PollBodyRoundTrip(PollRoute.PollInput(question, options, requireLogin));
  }

  /** The converse fails: the server takes a question of one to four
      characters that the form refuses. */
  lemma ServerLaxerThanClient()
    ensures var fields := [OptionField("a"), OptionField("b")];
      !FormValid("Why?", fields) &&
      PollRoute.ValidatePoll(SubmitBody("Why?", fields, false)).Some?
  {
    var fields := [OptionField("a"), OptionField("b")];
    assert Values(fields) == ["a", "b"];
    PollRoute.PollBodyRoundTrip(PollRoute.PollInput("Why?", ["a", "b"], false));
  }
}
