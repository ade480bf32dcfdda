/**
 JSON values as the conformance scripts see them.  Field names the scripts
 spell out are constructors of `Key`; any other name is `Named`.
 */
module Json {
  datatype Key =
    | AuthenticationIncluded | AutomaticAuthRequired | BaselineKind | Cases | CasesPassed | CasesTotal
    | CheckId | Checks | Failed | Failing | GitRef | Mode | ModernFeatureEnablement | Modes | Name
    | OfficialConformance | Passed | Passing | Repository | RequiredCases | RequiredModes | Reviewer
    | Scenario | Scenarios | SchemaVersion | Source | Status | Success | Summary | Total | Transport
    | Transports | VersionCheck | Named(name: string)

  datatype Value =
    | Null
    | Bool(flag: bool)
    | Number(n: int)
    | Text(text: string)
    | List(items: seq<Value>)
    | Object(fields: map<Key, Value>)
  {
    /** `dict.get`: an absent field reads as null. */
    function Get(key: Key): Value
      requires Object?
    {
      if key in fields then fields[key] else Null
    }
  }

  function ItemsOf(v: Value): seq<Value> {
    if v.List? then v.items else []
  }

  function Texts(names: seq<string>): Value {
    List(seq(|names|, i requires 0 <= i < |names| => Text(names[i])))
  }
}
