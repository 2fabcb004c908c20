/**
 * The third-party details form of an employee: insurance and RSSB (social
 * security) registration. It validates before submitting, updates one field
 * per change event while clearing that field's error, and loads an
 * employee's saved details with defaults for what is missing.
 */
module ThirdPartyForm {
  import opened Wrappers
  import opened Js

  /** The form state: section name to its fields. */
  type Form = map<string, Obj>
  /** The error messages: section name to field name to message. */
  type Errors = map<string, map<string, string>>

  const InsuranceFields := ["provider", "policyNumber", "expiryDate"]

  const InitialForm: Form := map[
    "insurance" := map["medical" := Bool(false), "life" := Bool(false), "provider" := Str(""),
                       "policyNumber" := Str(""), "expiryDate" := Str("")],
    "rssb" := map["registered" := Bool(false), "registrationNumber" := Str(""), "contributionRate" := Str("")]]

  function InsuranceMessage(field: string): string
  {
    if field == "provider" then "Provider is required"
    else if field == "policyNumber" then "Policy number is required"
    else "Expiry date is required"
  }

  const RegistrationRequired := "Registration number is required"
  const RateRequired := "Contribution rate is required"
  const RatePositive := "Contribution rate must be a positive number"

  /** A section of the form, or nothing when the form has no such section. */
  function Section(form: Form, s: string): Obj
  {
    if s in form then form[s] else map[]
  }

  function ErrorSection(errors: Errors, s: string): map<string, string>
  {
    if s in errors then errors[s] else map[]
  }

  /** The insurance fields are checked only when medical or life cover is ticked. */
  predicate InsuranceChecked(form: Form)
  {
    Truthy(Prop(Section(form, "insurance"), "medical")) || Truthy(Prop(Section(form, "insurance"), "life"))
  }

  predicate Registered(form: Form)
  {
    Truthy(Prop(Section(form, "rssb"), "registered"))
  }

  /** A falsy value is never a positive number: `isNaN(v) || v <= 0` holds for it. */
  lemma FalsyIsNotPositive(v: JsVal)
    requires !Truthy(v)
    ensures !IsPositiveNumber(v)
  {
  }

  /**
   * The insurance part of `validateForm`: with medical or life cover ticked,
   * one message per empty field; otherwise none.
   */
  function InsuranceErrors(insurance: Obj): (r: map<string, string>)
    ensures forall f | f in InsuranceFields ::
      && (f in r <==> (Truthy(Prop(insurance, "medical")) || Truthy(Prop(insurance, "life"))) && !Truthy(Prop(insurance, f)))
      && (f in r ==> r[f] == InsuranceMessage(f))
    ensures r.Keys <= {"provider", "policyNumber", "expiryDate"}
  {
    if !(Truthy(Prop(insurance, "medical")) || Truthy(Prop(insurance, "life"))) then map[]
    else
      var r1 := if Truthy(Prop(insurance, "provider")) then map[] else map["provider" := InsuranceMessage("provider")];
      var r2 := if Truthy(Prop(insurance, "policyNumber")) then r1 else r1["policyNumber" := InsuranceMessage("policyNumber")];
      if Truthy(Prop(insurance, "expiryDate")) then r2 else r2["expiryDate" := InsuranceMessage("expiryDate")]
  }

  /**
   * The RSSB part of `validateForm`: when registered, a missing registration
   * number, and a contribution rate that is missing or not a positive number.
   */
  function RssbErrors(rssb: Obj): (r: map<string, string>)
    ensures var registered := Truthy(Prop(rssb, "registered"));
      && ("registrationNumber" in r <==> registered && !Truthy(Prop(rssb, "registrationNumber")))
      && ("registrationNumber" in r ==> r["registrationNumber"] == RegistrationRequired)
      && ("contributionRate" in r <==> registered && !IsPositiveNumber(Prop(rssb, "contributionRate")))
      && ("contributionRate" in r ==>
            r["contributionRate"] == if Truthy(Prop(rssb, "contributionRate")) then RatePositive else RateRequired)
    ensures r.Keys <= {"registrationNumber", "contributionRate"}
  {
    if !Truthy(Prop(rssb, "registered")) then map[]
    else
      var rate := Prop(rssb, "contributionRate");
      var r1 := if Truthy(Prop(rssb, "registrationNumber")) then map[] else map["registrationNumber" := RegistrationRequired];
      if !Truthy(rate) then
        FalsyIsNotPositive(rate);
        r1["contributionRate" := RateRequired]
      else if !IsPositiveNumber(rate) then r1["contributionRate" := RatePositive]
      else r1
  }

  /**
   * The errors `validateForm` records: by section, a section present only
   * when one of its fields failed.
   */
  function FormErrors(form: Form): (r: Errors)
    requires "insurance" in form && "rssb" in form
    ensures r.Keys <= {"insurance", "rssb"}
    ensures forall s | s in r :: |r[s]| > 0
    ensures ErrorSection(r, "insurance") == InsuranceErrors(form["insurance"])
    ensures ErrorSection(r, "rssb") == RssbErrors(form["rssb"])
  {
    Sections(InsuranceErrors(form["insurance"]), RssbErrors(form["rssb"]))
  }

  /** The two sections, each recorded only when it holds an error. */
  function Sections(insuranceErrors: map<string, string>, rssbErrors: map<string, string>): (r: Errors)
    ensures r.Keys <= {"insurance", "rssb"}
    ensures forall s | s in r :: |r[s]| > 0
    ensures ErrorSection(r, "insurance") == insuranceErrors
    ensures ErrorSection(r, "rssb") == rssbErrors
  {
    var e1: Errors := if |insuranceErrors| > 0 then map["insurance" := insuranceErrors] else map[];
    if |rssbErrors| > 0 then e1["rssb" := rssbErrors] else e1
  }

  /** The insurance checks of `validateForm`, recording one error per empty field. */
  method CheckInsurance(insurance: Obj) returns (sectionErrors: map<string, string>)
    ensures sectionErrors == InsuranceErrors(insurance)
  {
    sectionErrors := map[];
    if Truthy(Prop(insurance, "medical")) || Truthy(Prop(insurance, "life")) {
      if !Truthy(Prop(insurance, "provider")) {
        sectionErrors := sectionErrors["provider" := InsuranceMessage("provider")];
      }
      if !Truthy(Prop(insurance, "policyNumber")) {
        sectionErrors := sectionErrors["policyNumber" := InsuranceMessage("policyNumber")];
      }
      if !Truthy(Prop(insurance, "expiryDate")) {
        sectionErrors := sectionErrors["expiryDate" := InsuranceMessage("expiryDate")];
      }
    }
  }

  /** The RSSB checks of `validateForm`. */
  method CheckRssb(rssb: Obj) returns (sectionErrors: map<string, string>)
    ensures sectionErrors == RssbErrors(rssb)
  {
    sectionErrors := map[];
    if Truthy(Prop(rssb, "registered")) {
      if !Truthy(Prop(rssb, "registrationNumber")) {
        sectionErrors := sectionErrors["registrationNumber" := RegistrationRequired];
      }
      if !Truthy(Prop(rssb, "contributionRate")) {
        sectionErrors := sectionErrors["contributionRate" := RateRequired];
      } else if !IsPositiveNumber(Prop(rssb, "contributionRate")) {
        sectionErrors := sectionErrors["contributionRate" := RatePositive];
      }
    }
  }

  /**
   * `validateForm`: the insurance and then the RSSB checks, a section
   * recorded only once one of its fields failed, and whether none did.
   */
  method ValidateForm(form: Form) returns (errors: Errors, valid: bool)
    requires "insurance" in form && "rssb" in form
    ensures errors == FormErrors(form)
    ensures valid <==> errors == map[]
  {
    var insuranceErrors := CheckInsurance(form["insurance"]);
    var rssbErrors := CheckRssb(form["rssb"]);
    errors := map[];
    if |insuranceErrors| > 0 {
      errors := errors["insurance" := insuranceErrors];
    }
    if |rssbErrors| > 0 {
      errors := errors["rssb" := rssbErrors];
    }
    valid := |errors| == 0;
  }

  /** The form validates exactly when every rule that applies to it is met. */
  lemma ValidateFormValid(form: Form)
    requires "insurance" in form && "rssb" in form
    ensures FormErrors(form) == map[] <==>
      && (InsuranceChecked(form) ==> forall f | f in InsuranceFields :: Truthy(Prop(form["insurance"], f)))
      && (Registered(form) ==> Truthy(Prop(form["rssb"], "registrationNumber")) && IsPositiveNumber(Prop(form["rssb"], "contributionRate")))
  {
    var ins := InsuranceErrors(form["insurance"]);
    var rs := RssbErrors(form["rssb"]);
    if |ins| > 0 {
      var f :| f in ins;
      assert f in InsuranceFields;
    }
    if |rs| > 0 {
      var f :| f in rs;
    }
    if InsuranceChecked(form) && !forall f | f in InsuranceFields :: Truthy(Prop(form["insurance"], f)) {
      var f :| f in InsuranceFields && !Truthy(Prop(form["insurance"], f));
      assert f in ins;
    }
  }

  /** `handleSubmit`: the form is handed to `onSubmit` only when it validates. */
  method HandleSubmit(form: Form) returns (submitted: Option<Form>, errors: Errors)
    requires "insurance" in form && "rssb" in form
    ensures submitted.Some? <==> errors == map[]
    ensures submitted.Some? ==> submitted.value == form
    ensures submitted.None? ==> "insurance" in errors || "rssb" in errors
  {
    var valid;
    errors, valid := ValidateForm(form);
    submitted := if valid then Some(form) else None;
  }

  // ---------------------------------------------------------------------
  // Change events
  // ---------------------------------------------------------------------

  /**
   * `const [section, field] = name.split('.')`: the text before the first
   * '.', and the text between the first and the second; a name without '.'
   * has no field, which as a property key reads "undefined".
   */
  function SplitName(name: string): (r: (string, string))
    ensures '.' !in r.0
    ensures '.' in name ==> '.' !in r.1 && |r.0| + 1 + |r.1| <= |name|
    ensures '.' !in name ==> r == (name, "undefined")
  {
    if |name| == 0 then ("", "undefined")
    else if name[0] == '.' then ("", UpToDot(name[1..]))
    else
      var rest := SplitName(name[1..]);
      assert name == [name[0]] + name[1..];
      ([name[0]] + rest.0, rest.1)
  }

  /** The text before the first '.', or all of it. */
  function UpToDot(s: string): (r: string)
    ensures '.' !in r && |r| <= |s| && r == s[..|r|]
  {
    if |s| == 0 || s[0] == '.' then "" else [s[0]] + UpToDot(s[1..])
  }

  /**
   * `handleChange`: the named field takes the checkbox state or the input
   * value, and its error, when it had a non-empty one, is blanked.
   */
  function HandleChange(form: Form, errors: Errors, name: string, value: JsVal, isCheckbox: bool, checked: bool)
    : (r: (Form, Errors))
    ensures var (section, field) := SplitName(name);
      && Prop(Section(r.0, section), field) == (if isCheckbox then Bool(checked) else value)
      && r.0.Keys == form.Keys + {section}
      && (field in ErrorSection(r.1, section) <==> field in ErrorSection(errors, section))
      && (field in ErrorSection(errors, section) ==> ErrorSection(r.1, section)[field] == "")
      && r.1.Keys == errors.Keys + (if field in ErrorSection(errors, section) then {section} else {})
  {
    var (section, field) := SplitName(name);
    var newForm := form[section := Section(form, section)[field := if isCheckbox then Bool(checked) else value]];
    var err := ErrorSection(errors, section);
    var newErrors := if field in err && err[field] != "" then errors[section := err[field := ""]] else errors;
    (newForm, newErrors)
  }

  /** A change event touches only its own field, and only that field's error. */
  lemma HandleChangeOnlyThatField(form: Form, errors: Errors, name: string, value: JsVal, isCheckbox: bool, checked: bool,
                                  s: string, f: string)
    requires (s, f) != SplitName(name)
    ensures var r := HandleChange(form, errors, name, value, isCheckbox, checked);
      && Prop(Section(r.0, s), f) == Prop(Section(form, s), f)
      && (f in ErrorSection(r.1, s) <==> f in ErrorSection(errors, s))
      && (f in ErrorSection(errors, s) ==> ErrorSection(r.1, s)[f] == ErrorSection(errors, s)[f])
  {
  }

  /** A checkbox event stores the checkbox state, whatever the input's value. */
  lemma CheckboxStoresChecked(form: Form, errors: Errors, name: string, value: JsVal, checked: bool)
    ensures var (section, field) := SplitName(name);
      Prop(Section(HandleChange(form, errors, name, value, true, checked).0, section), field) == Bool(checked)
  {
  }

  /** A name of the form `section.field` splits into exactly those two parts. */
  lemma {:induction false} SplitDotted(section: string, field: string)
    requires '.' !in section && '.' !in field
    ensures SplitName(section + "." + field) == (section, field)
    decreases |section|
  {
    var name := section + "." + field;
    if |section| == 0 {
      assert name == "." + field && name[1..] == field;
      UpToDotWhole(field);
    } else {
      assert name[1..] == section[1..] + "." + field;
      SplitDotted(section[1..], field);
      assert [section[0]] + section[1..] == section;
    }
  }

  lemma {:induction false} UpToDotWhole(s: string)
    requires '.' !in s
    ensures UpToDot(s) == s
    decreases |s|
  {
    if |s| > 0 {
      UpToDotWhole(s[1..]);
      assert [s[0]] + s[1..] == s;
    }
  }

  // ---------------------------------------------------------------------
  // Loading an employee's details
  // ---------------------------------------------------------------------

  /** `x || d` for one saved field: a falsy or missing saved value gives the default. */
  function Loaded(saved: Obj, field: string, default: JsVal): JsVal
  {
    Or(Prop(saved, field), default)
  }

  /**
   * The form after an employee is selected: unchanged when the employee has
   * no saved details; otherwise every field from the saved details, false or
   * '' where a value is missing or falsy. `info` maps a section name to the
   * saved section.
   */
  function LoadForm(current: Form, info: Option<map<string, Obj>>): (r: Form)
    ensures info.None? ==> r == current
    ensures info.Some? ==> r.Keys == {"insurance", "rssb"}
    ensures info.Some? ==>
      && r["insurance"].Keys == {"medical", "life", "provider", "policyNumber", "expiryDate"}
      && r["rssb"].Keys == {"registered", "registrationNumber", "contributionRate"}
  {
    if info.None? then current
    else
      var ins := if "insurance" in info.value then info.value["insurance"] else map[];
      var rs := if "rssb" in info.value then info.value["rssb"] else map[];
      map[
        "insurance" := map[
          "medical" := Loaded(ins, "medical", Bool(false)),
          "life" := Loaded(ins, "life", Bool(false)),
          "provider" := Loaded(ins, "provider", Str("")),
          "policyNumber" := Loaded(ins, "policyNumber", Str("")),
          "expiryDate" := Loaded(ins, "expiryDate", Str(""))],
        "rssb" := map[
          "registered" := Loaded(rs, "registered", Bool(false)),
          "registrationNumber" := Loaded(rs, "registrationNumber", Str("")),
          "contributionRate" := Loaded(rs, "contributionRate", Str(""))]]
  }

  /** A truthy saved value is loaded as it is; anything else becomes false or ''. */
  lemma LoadFormFields(current: Form, info: map<string, Obj>, section: string, field: string)
    requires section in {"insurance", "rssb"} && field in LoadForm(current, Some(info))[section]
    ensures var saved := if section in info then Prop(info[section], field) else Undefined;
      var loaded := LoadForm(current, Some(info))[section][field];
      && (Truthy(saved) ==> loaded == saved)
      && (!Truthy(saved) ==> loaded == (if field in {"medical", "life", "registered"} then Bool(false) else Str("")))
  {
  }

  /** An employee with no saved details, loaded into the initial form, validates at once. */
  method EmptyDetailsValidate() returns (valid: bool)
    ensures valid
  {
    var form := LoadForm(InitialForm, Some(map[]));
    assert form["insurance"]["medical"] == Bool(false) && form["insurance"]["life"] == Bool(false);
    assert form["rssb"]["registered"] == Bool(false);
    assert !InsuranceChecked(form) && !Registered(form);
    ValidateFormValid(form);
    var errors;
    errors, valid := ValidateForm(form);
  }
}
