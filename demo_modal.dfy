/**
 * The Landing demo-booking wizard (DemoModal): three steps (personal data,
 * company, date and time), each validated before Next moves on, a Back
 * button, a submit that closes the modal when the current step is valid, and
 * input changes that write one field of the form data and mark it touched.
 * Every input of this form writes its text. The state is a value (`Wizard`)
 * with one pure function per handler, and a class whose methods change its
 * fields as the handlers change the component's state. Toasts and the submit
 * delay are left out.
 */
module DemoModal {
  import opened FormFields

  /** The steps: personal, company, datetime. */
  const LastStep := 2

  /** The form as it opens: every text empty. */
  const InitialForm: map<string, string> := map[
    "firstName" := "", "lastName" := "", "email" := "",
    "company" := "", "companySize" := "", "useCase" := "",
    "preferredDate" := "", "preferredTime" := ""]

  /** JavaScript truthiness of a text field: present and non-empty. */
  predicate Filled(form: map<string, string>, key: string) {
    key in form && form[key] != []
  }

  /** The fields each step checks. */
  function StepFields(step: int): set<string> {
    if step == 0 then {"firstName", "lastName", "email"}
    else if step == 1 then {"company", "companySize", "useCase"}
    else if step == 2 then {"preferredDate", "preferredTime"}
    else {}
  }

  /** `validateStep`. */
  predicate StepValid(step: int, form: map<string, string>) {
    if step == 0 then Filled(form, "firstName") && Filled(form, "lastName") && Filled(form, "email")
    else if step == 1 then Filled(form, "company") && Filled(form, "companySize") && Filled(form, "useCase")
    else if step == 2 then Filled(form, "preferredDate") && Filled(form, "preferredTime")
    else false
  }

  /** A step is valid exactly when every field it checks is filled, and a step outside 0..2 never is. */
  lemma StepValidSpec(step: int, form: map<string, string>)
    ensures 0 <= step <= LastStep ==> (StepValid(step, form) <==> forall k :: k in StepFields(step) ==> Filled(form, k))
    ensures !(0 <= step <= LastStep) ==> !StepValid(step, form)
  {
    if step == 0 {
      assert "firstName" in StepFields(0) && "lastName" in StepFields(0) && "email" in StepFields(0);
    } else if step == 1 {
      assert "company" in StepFields(1) && "companySize" in StepFields(1) && "useCase" in StepFields(1);
    } else if step == 2 {
      assert "preferredDate" in StepFields(2) && "preferredTime" in StepFields(2);
    }
  }

  /** A step's validity depends on its own fields only; a new form passes no step. */
  lemma StepValidLocal(step: int, form: map<string, string>, name: string, v: string)
    requires name !in StepFields(step)
    ensures StepValid(step, form[name := v]) == StepValid(step, form)
    ensures !StepValid(step, InitialForm)
  {
  }

  /** The component's state; `closed`: the submit has called `onClose`. */
  datatype Wizard = Wizard(step: int, form: map<string, string>, touched: map<string, bool>, closed: bool)

  const Opened := Wizard(0, InitialForm, map[], false)

  /** `handleInputChange`. */
  function InputChanged(w: Wizard, name: string, value: string): Wizard {
    w.(form := w.form[name := value], touched := w.touched[name := true])
  }

  /** `handleNext`: one step on when the step is valid, otherwise the step marked touched. */
  function Next(w: Wizard): Wizard
    requires w.step >= 0
  {
    if StepValid(w.step, w.form) then w.(step := w.step + 1) else w.(touched := w.touched[StepKey(w.step) := true])
  }

  /** `handleBack`. */
  function Back(w: Wizard): Wizard {
    w.(step := w.step - 1)
  }

  /** `handleSubmit`: nothing when the step is invalid, otherwise the modal closes. */
  function Submit(w: Wizard): Wizard {
    if StepValid(w.step, w.form) then w.(closed := true) else w
  }

  /** An input change writes exactly the named field and its touched mark. */
  lemma InputChangedSpec(w: Wizard, name: string, value: string)
    ensures var r := InputChanged(w, name, value);
      && r.step == w.step && r.closed == w.closed
      && r.form.Keys == w.form.Keys + {name} && r.touched.Keys == w.touched.Keys + {name}
      && r.form[name] == value && r.touched[name]
      && (forall k :: k in w.form && k != name ==> r.form[k] == w.form[k])
      && (forall k :: k in w.touched && k != name ==> r.touched[k] == w.touched[k])
  {
  }

  /**
   * Next moves exactly one step on a valid step, and on an invalid one only
   * marks it; the form never changes. From a step Next is offered on (below
   * the last) it stays within the steps.
   */
  lemma NextSpec(w: Wizard)
    requires 0 <= w.step < LastStep
    ensures var r := Next(w);
      && r.form == w.form && r.closed == w.closed
      && (StepValid(w.step, w.form) ==> r.step == w.step + 1 && r.touched == w.touched)
      && (!StepValid(w.step, w.form) ==> r.step == w.step && r.touched == w.touched[StepKey(w.step) := true])
      && 0 <= r.step <= LastStep
  {
  }

  /** From a step Back is offered on (above the first) it goes one back, staying within the steps; Next undoes it when that step is valid. */
  lemma BackSpec(w: Wizard)
    requires 0 < w.step <= LastStep
    ensures Back(w).step == w.step - 1 && 0 <= Back(w).step
    ensures StepValid(w.step - 1, w.form) ==> Next(Back(w)) == w
  {
  }

  /** A submit on an invalid step is a no-op; on a valid one it only closes the modal. */
  lemma SubmitSpec(w: Wizard)
    ensures !StepValid(w.step, w.form) ==> Submit(w) == w
    ensures StepValid(w.step, w.form) ==> Submit(w) == w.(closed := true)
  {
  }

  ghost predicate InRange(w: Wizard) {
    0 <= w.step <= LastStep
  }

  /** The demo modal's state. */
  class DemoWizard {
    var step: int
    var form: map<string, string>
    var touched: map<string, bool>
    var closed: bool

    function State(): Wizard
      reads this
    {
      Wizard(step, form, touched, closed)
    }

    /** The buttons keep the step within the steps. */
    ghost predicate Valid()
      reads this
    {
      InRange(State())
    }

    constructor ()
      ensures State() == Opened && Valid()
    {
      step := 0;
      form := InitialForm;
      touched := map[];
      closed := false;
    }

    method HandleInputChange(name: string, value: string)
      requires Valid()
      modifies this
      ensures State() == InputChanged(old(State()), name, value) && Valid()
    {
      form := form[name := value];
      touched := touched[name := true];
    }

    /** Next, offered while the step is below the last. */
    method HandleNext()
      requires Valid() && step < LastStep
      modifies this
      ensures State() == Next(old(State())) && Valid()
    {
      if StepValid(step, form) {
        step := step + 1;
      } else {
        touched := touched[StepKey(step) := true];
      }
    }

    /** Back, offered while the step is above the first. */
    method HandleBack()
      requires Valid() && step > 0
      modifies this
      ensures State() == Back(old(State())) && Valid()
    {
      step := step - 1;
    }

    method HandleSubmit()
      requires Valid()
      modifies this
      ensures State() == Submit(old(State())) && Valid()
    {
      if !StepValid(step, form) {
        return;
      }
      closed := true;
    }
  }
}
