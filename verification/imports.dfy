/** The flat generation's module imports: `dcnm_interfaces.py` imports its
    exception classes by name from `DCNM_errors.py`, and a `from … import`
    statement raises ImportError on the first name the module does not
    define, before the importing module has defined anything. */
module Imports {
  import opened Wrappers
  import opened Errors

  /** `from source import names[0], names[1], …` against a module that
      defines `defined`: the names are bound in order, and the first one
      missing raises ImportError. */
  function FromImport(source: string, defined: set<string>, names: seq<string>): (r: Result<(), Error>)
    ensures r.Ok? <==> forall i :: 0 <= i < |names| ==> names[i] in defined
    ensures r.Err? ==> exists i :: 0 <= i < |names| && names[i] !in defined &&
                                   r.error == ImportError(names[i], source) &&
                                   forall j :: 0 <= j < i ==> names[j] in defined
    decreases |names|
  {
    if |names| == 0 then Ok(())
    else if names[0] !in defined then Err(ImportError(names[0], source))
    else
      var rest := FromImport(source, defined, names[1..]);
      if rest.Err? then
        assert exists i :: 1 <= i < |names| && names[i] !in defined &&
                          rest.error == ImportError(names[i], source) &&
                          forall j :: 0 <= j < i ==> names[j] in defined by {
          var k :| 0 <= k < |names[1..]| && names[1..][k] !in defined &&
                   rest.error == ImportError(names[1..][k], source) &&
                   forall j :: 0 <= j < k ==> names[1..][j] in defined;
          assert names[k + 1] == names[1..][k];
          forall j | 0 <= j < k + 1 ensures names[j] in defined {
            if j > 0 {
              assert names[j] == names[1..][j - 1];
            }
          }
        }
        rest
      else
        assert forall i :: 1 <= i < |names| ==> names[i] == names[1..][i - 1];
        Ok(())
  }

  /** The exception classes the flat generation's `DCNM_errors.py`
      defines. */
  const FlatErrorClasses: set<string> := {
    "DCNMInterfacesParameterError", "DCNMSwitchesPoliciesParameterError", "DCNMParameterError",
    "DCNMSwitchStatusError", "DCNMSwitchStatusParameterError", "DCNMServerResponseError",
    "DCNMPolicyDeployError", "DCNMSwitchesSwitchesParameterError", "DCNMFileError",
    "DCNMValueError", "DCNMConnectionError", "DCNMAuthenticationError",
    "DCNMUnauthorizedError", "ExcelFileError"}

  /** The names `dcnm_interfaces.py` imports from `DCNM_errors`, with the
      parameter error's name spelled as written or as the class is
      named. */
  function DcnmInterfacesImports(corrected: bool): (r: seq<string>)
    ensures |r| == 8
    ensures r[3] == if corrected then "DCNMParameterError" else "DCNMParamaterError"
  {
    ["DCNMServerResponseError", "DCNMInterfacesParameterError", "DCNMSwitchesPoliciesParameterError",
     if corrected then "DCNMParameterError" else "DCNMParamaterError",
     "DCNMSwitchesSwitchesParameterError", "DCNMPolicyDeployError",
     "DCNMSwitchStatusParameterError", "DCNMSwitchStatusError"]
  }

  /** Importing `dcnm_interfaces` as written raises ImportError on the
      misspelled parameter error; so does importing anything that imports
      it (`interfaces_utilities`, the flat `change_interfaces`). */
  lemma FlatImportFails()
    ensures FromImport("DCNM_errors", FlatErrorClasses, DcnmInterfacesImports(false)) ==
      Err(ImportError("DCNMParamaterError", "DCNM_errors"))
  {
    var names := DcnmInterfacesImports(false);
    assert names[3] !in FlatErrorClasses;
    assert forall j :: 0 <= j < 3 ==> names[j] in FlatErrorClasses;
    var r := FromImport("DCNM_errors", FlatErrorClasses, names);
    var i :| 0 <= i < |names| && names[i] !in FlatErrorClasses && r.error == ImportError(names[i], "DCNM_errors") &&
             forall j :: 0 <= j < i ==> names[j] in FlatErrorClasses;
    assert i == 3;
  }

  /** With the class's own name every import is bound. */
  lemma FlatImportCorrected()
    ensures FromImport("DCNM_errors", FlatErrorClasses, DcnmInterfacesImports(true)) == Ok(())
  {
    var names := DcnmInterfacesImports(true);
    assert forall i :: 0 <= i < |names| ==> names[i] in FlatErrorClasses;
  }
}
