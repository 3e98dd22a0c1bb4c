/**
 * The form: `Widget.on_start` restores the last submitted values from the
 * settings file, `Widget.on_submit` checks the inputs in a fixed order and,
 * when all pass, writes the settings and starts the worker. The settings file
 * is modelled by what `json.loads` makes of it, and the key files by a map
 * from existing paths to their bytes.
 */
module Submission {
  import opened Opt
  import opened Base64
  import opened Validation
  import opened WorkerThread

  /** The values in the form's fields and the checked environment button. */
  datatype Form = Form(
    filePath: string,
    keyId: string,
    issuerId: string,
    bundleId: string,
    orderId: string,
    environment: Environment)

  const CertificatePathMessage := "Please enter the correct certificate path!"
  const IssuerIdMessage := "Please enter a issuer id!"
  const BundleIdMessage := "Please enter a bundle id!"
  const KeyIdMessage := "Please enter a key id!"
  const OrderIdMessage := "Please enter an order id!"
  const SearchingMessage := "Searching..."
  const DefaultKeyPath := "/path/to/SubscriptionKey_xxx.p8"

  /** One input check of `on_submit`: whether it passes, and the error box text when it does not. */
  datatype Check = Check(passes: bool, message: string)

  /** The checks of `on_submit`, in the order it makes them. */
  function Checks(form: Form, keyFiles: map<string, seq<byte>>): (r: seq<Check>)
    ensures |r| == 5
    ensures forall i, j :: 0 <= i < j < |r| ==> r[i].message != r[j].message
  {
    [ Check(form.filePath in keyFiles, CertificatePathMessage),
      Check(PatternSearch(form.issuerId), IssuerIdMessage),
      Check(PatternSearch(form.bundleId), BundleIdMessage),
      Check(PatternSearch(form.keyId), KeyIdMessage),
      Check(PatternSearch(form.orderId), OrderIdMessage) ]
  }

  /** The check that makes `on_submit` return: the first that fails, None when all pass. */
  function FirstFailure(checks: seq<Check>): (r: Option<nat>)
    ensures r.Some? ==> r.value < |checks| && !checks[r.value].passes
    ensures r.Some? ==> forall j :: 0 <= j < r.value ==> checks[j].passes
    ensures r.None? <==> forall j :: 0 <= j < |checks| ==> checks[j].passes
    decreases |checks|
  {
    if |checks| == 0 then None
    else if !checks[0].passes then Some(0)
    else match FirstFailure(checks[1..])
      case None => None
      case Some(i) => Some(i + 1)
  }

  /** The failure `on_submit` reports is determined: the failing check with none failing before it. */
  lemma FirstFailureIs(checks: seq<Check>, i: nat)
    requires i < |checks| && !checks[i].passes
    requires forall j :: 0 <= j < i ==> checks[j].passes
    ensures FirstFailure(checks) == Some(i)
  {
  }

  /** Submission goes ahead exactly when the key file exists and all four identifiers match the pattern. */
  lemma SubmitProceedsIff(form: Form, keyFiles: map<string, seq<byte>>)
    ensures FirstFailure(Checks(form, keyFiles)).None? <==>
      && form.filePath in keyFiles
      && PatternSearch(form.issuerId) && PatternSearch(form.bundleId)
      && PatternSearch(form.keyId) && PatternSearch(form.orderId)
  {
    var c := Checks(form, keyFiles);
    if FirstFailure(c).None? {
      assert c[0].passes && c[1].passes && c[2].passes && c[3].passes && c[4].passes;
    }
  }

  /** The settings `on_submit` writes to `eoconfig.json`. */
  function SettingsOf(form: Form): (r: map<string, string>)
    ensures r.Keys == {"issuer_id", "key_id", "bundle_id", "order_id", "environment", "file_path"}
    ensures r["environment"] == "Production" || r["environment"] == "Sandbox"
  {
    map[
      "issuer_id" := form.issuerId,
      "key_id" := form.keyId,
      "bundle_id" := form.bundleId,
      "order_id" := form.orderId,
      "environment" := EnvironmentValue(form.environment),
      "file_path" := form.filePath]
  }

  /** What `json.loads` makes of an existing settings file. */
  datatype SettingsFile = Unparsable | Parsed(data: map<string, string>)

  /** `data.get(key, default)`. */
  function Get(data: map<string, string>, key: string, default: string): string {
    if key in data then data[key] else default
  }

  /**
   * `on_start`: with no settings file, or one that is not JSON, the form keeps
   * its values; otherwise every field takes its stored value or its default,
   * and the sandbox button is checked when the stored environment is sandbox.
   */
  function Restore(form: Form, file: Option<SettingsFile>): (r: Form)
    ensures (file.None? || file == Some(Unparsable)) ==> r == form
    ensures r.environment == Sandbox || r.environment == form.environment
    ensures file == Some(Parsed(map[])) ==> r == Form(DefaultKeyPath, "", "", "", "", form.environment)
  {
    match file
    case None => form
    case Some(Unparsable) => form
    case Some(Parsed(data)) =>
      Form(
        Get(data, "file_path", DefaultKeyPath),
        Get(data, "key_id", ""),
        Get(data, "issuer_id", ""),
        Get(data, "bundle_id", ""),
        Get(data, "order_id", ""),
        if Get(data, "environment", "") == EnvironmentValue(Sandbox) then Sandbox else form.environment)
  }

  /**
   * Restoring the settings of a submitted form gives back every field; the
   * environment comes back when it was sandbox, while production leaves the
   * button as the form had it.
   */
  lemma SettingsRoundTrip(submitted: Form, startup: Form)
    ensures Restore(startup, Some(Parsed(SettingsOf(submitted)))) ==
      submitted.(environment := if submitted.environment == Sandbox then Sandbox else startup.environment)
  {
    var data := SettingsOf(submitted);
    assert "Production" != "Sandbox";
    assert Get(data, "environment", "") == EnvironmentValue(submitted.environment);
  }

  /** The request the worker is given by a submission that passed every check. */
  function RequestOf(form: Form, privateKey: seq<byte>): Request {
    Request(Some(privateKey), Some(form.keyId), Some(form.issuerId), Some(form.bundleId),
            Some(form.environment), Some(form.orderId))
  }

  /** The form window: its fields, its result text, its last error box and its worker. */
  class Widget {
    var form: Form
    var display: string
    var dialog: Option<string>
    var worker: Worker
    var starts: nat

    /**
     * `__init__`: the form and the result text as laid out (`initial`, `text`),
     * then `on_start`, then a fresh worker.
     */
    constructor (initial: Form, text: string, settings: Option<SettingsFile>)
      ensures form == Restore(initial, settings)
      ensures display == text && dialog == None && starts == 0
      ensures fresh(worker) && worker.CurrentRequest() == Unset
    {
      form := initial;
      display := text;
      dialog := None;
      starts := 0;
      worker := new Worker();
      new;
      OnStart(settings);
    }

    method OnStart(settings: Option<SettingsFile>)
      modifies this`form
      ensures form == Restore(old(form), settings)
    {
      match settings {
        case None =>
        case Some(Unparsable) =>
        case Some(Parsed(data)) =>
          var environment := form.environment;
          if Get(data, "environment", "") == EnvironmentValue(Sandbox) {
            environment := Sandbox;
          }
          form := Form(
            Get(data, "file_path", DefaultKeyPath),
            Get(data, "key_id", ""),
            Get(data, "issuer_id", ""),
            Get(data, "bundle_id", ""),
            Get(data, "order_id", ""),
            environment);
      }
    }

    /**
     * `on_submit`: the result text becomes "Searching...", then the first
     * failing check shows its error box and ends the call; when all pass, the
     * settings are written (returned here) and the worker is given the values
     * and started.
     */
    method OnSubmit(keyFiles: map<string, seq<byte>>) returns (written: Option<map<string, string>>)
      modifies this, worker
      ensures form == old(form) && worker == old(worker) && display == SearchingMessage
      ensures var checks := Checks(old(form), keyFiles);
              match FirstFailure(checks)
              case Some(i) =>
                && dialog == Some(checks[i].message)
                && written == None
                && starts == old(starts)
                && worker.CurrentRequest() == old(worker.CurrentRequest())
              case None =>
                && dialog == old(dialog)
                && written == Some(SettingsOf(old(form)))
                && starts == old(starts) + 1
                && worker.CurrentRequest() == RequestOf(old(form), keyFiles[old(form).filePath])
    {
      display := SearchingMessage;
      var checks := Checks(form, keyFiles);

      var filePath := form.filePath;
      if filePath !in keyFiles {
        FirstFailureIs(checks, 0);
        dialog := Some(CertificatePathMessage);
        return None;
      }
      var privateKey := keyFiles[filePath];
      var environment := form.environment;

      var issuerId := form.issuerId;
      if !PatternSearch(issuerId) {
        FirstFailureIs(checks, 1);
        dialog := Some(IssuerIdMessage);
        return None;
      }
      var bundleId := form.bundleId;
      if !PatternSearch(bundleId) {
        FirstFailureIs(checks, 2);
        dialog := Some(BundleIdMessage);
        return None;
      }
      var keyId := form.keyId;
      if !PatternSearch(keyId) {
        FirstFailureIs(checks, 3);
        dialog := Some(KeyIdMessage);
        return None;
      }
      var orderId := form.orderId;
      if !PatternSearch(orderId) {
        FirstFailureIs(checks, 4);
        dialog := Some(OrderIdMessage);
        return None;
      }

      written := Some(SettingsOf(form));
      worker.SetValue(Some(privateKey), Some(keyId), Some(issuerId), Some(bundleId), Some(environment), Some(orderId));
      starts := starts + 1;
    }

    /** `callback`: the result text becomes the emitted string. */
    method Callback(text: string)
      modifies this`display
      ensures display == text
    {
      display := text;
    }

    /** `on_clear`. */
    method OnClear()
      modifies this`display
      ensures display == ""
    {
      display := "";
    }

    /**
     * The worker's strings reach `callback` one by one, in order; each replaces
     * the result text, so the text left shown is the last one emitted.
     */
    method DeliverAll(emitted: seq<string>)
      modifies this`display
      ensures display == if emitted == [] then old(display) else emitted[|emitted| - 1]
    {
      var i := 0;
      while i < |emitted|
        invariant 0 <= i <= |emitted|
        invariant display == if i == 0 then old(display) else emitted[i - 1]
      {
        Callback(emitted[i]);
        i := i + 1;
      }
    }
  }
}
