/** Backend resolution of the `files_user_cleanup:cleanup` command: how the
    `--user-backend` option picks one of the registered user backends. */
module Backends {

  datatype Option<T> = None | Some(value: T)

  /** A registered user backend. One that implements IUserBackend reports its
      own display name; any other backend is known only by its class name. */
  datatype Backend =
    | NamedBackend(className: string, displayName: string)
    | UnnamedBackend(className: string)

  /** The name the command shows for a backend and matches the option against: the
      backend's own name when it implements IUserBackend, its class name otherwise. */
  function BackendName(b: Backend): (n: string)
    ensures b.NamedBackend? ==> n == b.displayName
    ensures b.UnnamedBackend? ==> n == b.className
  {
    match b
    case NamedBackend(_, name) => name
    case UnnamedBackend(cls) => cls
  }

  predicate IsUpper(c: char) {
    'A' <= c <= 'Z'
  }

  /** ASCII lower-casing of one character, as PHP's locale-independent strtolower. */
  function LowerChar(c: char): (d: char)
    ensures !IsUpper(d)
    ensures IsUpper(c) ==> d as int == c as int + 32
    ensures !IsUpper(c) ==> d == c
  {
    if IsUpper(c) then (c as int + 32) as char else c
  }

  /** strtolower: the length is kept and no upper-case letter is left. */
  function ToLower(s: string): (r: string)
    ensures |r| == |s|
    ensures forall i :: 0 <= i < |r| ==> !IsUpper(r[i])
  {
    if s == [] then [] else [LowerChar(s[0])] + ToLower(s[1..])
  }

  /** strtolower works character by character. */
  lemma {:induction false} ToLowerAt(s: string, i: int)
    requires 0 <= i < |s|
    ensures ToLower(s)[i] == LowerChar(s[i])
  {
    if i > 0 {
      ToLowerAt(s[1..], i - 1);
    }
  }

  /** PHP truthiness of the option value: an absent option, "" and "0" are all false. */
  predicate Truthy(option: Option<string>): (t: bool)
    ensures t ==> option.Some? && option.value != "" && option.value != "0"
    ensures option.Some? && |option.value| >= 2 ==> t
    ensures option.Some? && |option.value| == 1 ==> (t <==> option.value[0] != '0')
  {
    option.Some? && option.value != "" && option.value != "0"
  }

  /** The lowered name of each backend, in registration order: what the array_filter
      callback compares with the lowered option. */
  function LoweredNames(bs: seq<Backend>): seq<string> {
    seq(|bs|, i requires 0 <= i < |bs| => ToLower(BackendName(bs[i])))
  }

  /** The keys array_filter keeps: the positions whose lowered name equals `sel`, in
      registration order (array_filter preserves keys). */
  function MatchingKeys(names: seq<string>, sel: string): (r: seq<nat>)
    ensures forall k :: 0 <= k < |r| ==> r[k] < |names| && names[r[k]] == sel
    ensures forall i :: 0 <= i < |names| && names[i] == sel ==> i in r
    ensures forall k, l :: 0 <= k < l < |r| ==> r[k] < r[l]
  {
    if names == [] then []
    else
      var front := names[..|names| - 1];
      var rest := MatchingKeys(front, sel);
      assert forall i :: 0 <= i < |front| ==> front[i] == names[i];
      if names[|names| - 1] == sel then
        var r := rest + [|names| - 1];
        assert forall k :: 0 <= k < |rest| ==> r[k] == rest[k];
        r
      else rest
  }

  /** Position `i` holds the one and only name equal to `sel`. */
  ghost predicate OnlyMatch(names: seq<string>, sel: string, i: int) {
    && 0 <= i < |names|
    && names[i] == sel
    && forall j :: 0 <= j < |names| && j != i ==> names[j] != sel
  }

  ghost predicate NoMatch(names: seq<string>, sel: string) {
    forall j :: 0 <= j < |names| ==> names[j] != sel
  }

  ghost predicate SeveralMatch(names: seq<string>, sel: string) {
    exists i, j :: 0 <= i < j < |names| && names[i] == sel && names[j] == sel
  }

  /** How the count of kept keys relates to the names that match. */
  lemma MatchCountCases(names: seq<string>, sel: string)
    ensures |MatchingKeys(names, sel)| == 0 <==> NoMatch(names, sel)
    ensures |MatchingKeys(names, sel)| >= 2 <==> SeveralMatch(names, sel)
    ensures |MatchingKeys(names, sel)| == 1 ==> OnlyMatch(names, sel, MatchingKeys(names, sel)[0])
  {
    var m := MatchingKeys(names, sel);
    if |m| >= 2 {
      assert names[m[0]] == sel && names[m[1]] == sel && m[0] < m[1];
    }
    if SeveralMatch(names, sel) {
      var i, j :| 0 <= i < j < |names| && names[i] == sel && names[j] == sel;
      assert i in m && j in m;
      var a :| 0 <= a < |m| && m[a] == i;
      var b :| 0 <= b < |m| && m[b] == j;
      assert a != b;
    }
    if |m| == 1 {
      forall j | 0 <= j < |names| && j != m[0]
        ensures names[j] != sel
      {
        assert names[j] == sel ==> j in m;
      }
    }
    if |m| > 0 {
      assert names[m[0]] == sel;
    }
  }

  /** The outcome of resolving the option against the registered backends. */
  datatype Selection =
    | Selected(backend: Backend)
    | NoneRegistered            // current([]) yields false: there is no backend object
    | Unspecified               // several backends and no (truthy) option
    | NotFound(requested: string)
    | Ambiguous(requested: string)

  /** Lines 72-98 exactly as written: the second test repeats `count($matching) === 1`,
      so a multi-match falls through to the "not found" branch. */
  function ResolveAsWritten(bs: seq<Backend>, option: Option<string>): (r: Selection)
    ensures !r.Ambiguous?
    ensures r.Selected? ==> r.backend in bs
    ensures |bs| == 1 ==> r == Selected(bs[0])
    ensures r.NoneRegistered? <==> bs == []
    ensures r.Unspecified? <==> |bs| > 1 && !Truthy(option)
    ensures r.NotFound? <==>
              |bs| > 1 && Truthy(option)
              && (NoMatch(LoweredNames(bs), ToLower(option.value)) || SeveralMatch(LoweredNames(bs), ToLower(option.value)))
    ensures r.Selected? && |bs| > 1 ==>
              Truthy(option) && exists i :: OnlyMatch(LoweredNames(bs), ToLower(option.value), i) && bs[i] == r.backend
    ensures r.NotFound? ==> r.requested == ToLower(option.value)
  {
    if |bs| > 1 then
      if Truthy(option) then
        var sel := ToLower(option.value);
        var matching := MatchingKeys(LoweredNames(bs), sel);
        MatchCountCases(LoweredNames(bs), sel);
        if |matching| == 1 then Selected(bs[matching[0]])
        else if |matching| == 1 then Ambiguous(sel)
        else NotFound(sel)
      else
        Unspecified
    else if |bs| == 1 then
      Selected(bs[0])
    else
      NoneRegistered
  }

  /** The evidently intended rule: exactly one match selects it, none is "not found",
      several are "ambiguous". */
  function Resolve(bs: seq<Backend>, option: Option<string>): (r: Selection)
    ensures r.Selected? ==> r.backend in bs
    ensures |bs| == 1 ==> r == Selected(bs[0])
    ensures r.NoneRegistered? <==> bs == []
    ensures r.Unspecified? <==> |bs| > 1 && !Truthy(option)
    ensures r.NotFound? <==> |bs| > 1 && Truthy(option) && NoMatch(LoweredNames(bs), ToLower(option.value))
    ensures r.Ambiguous? <==> |bs| > 1 && Truthy(option) && SeveralMatch(LoweredNames(bs), ToLower(option.value))
    ensures r.Selected? && |bs| > 1 ==>
              Truthy(option) && exists i :: OnlyMatch(LoweredNames(bs), ToLower(option.value), i) && bs[i] == r.backend
    ensures (r.NotFound? || r.Ambiguous?) ==> r.requested == ToLower(option.value)
  {
    if |bs| > 1 then
      if Truthy(option) then
        var sel := ToLower(option.value);
        var matching := MatchingKeys(LoweredNames(bs), sel);
        MatchCountCases(LoweredNames(bs), sel);
        if |matching| == 1 then Selected(bs[matching[0]])
        else if |matching| > 1 then Ambiguous(sel)
        else NotFound(sel)
      else
        Unspecified
    else if |bs| == 1 then
      Selected(bs[0])
    else
      NoneRegistered
  }

  /** With several backends, the position holding the only match is what is selected,
      whatever the case of the option. */
  lemma OnlyMatchIsSelected(bs: seq<Backend>, option: Option<string>, i: int)
    requires |bs| > 1 && Truthy(option)
    requires OnlyMatch(LoweredNames(bs), ToLower(option.value), i)
    ensures Resolve(bs, option) == Selected(bs[i])
    ensures ResolveAsWritten(bs, option) == Selected(bs[i])
  {
    var sel := ToLower(option.value);
    var m := MatchingKeys(LoweredNames(bs), sel);
    MatchCountCases(LoweredNames(bs), sel);
    assert i in m;
    assert !SeveralMatch(LoweredNames(bs), sel);
    assert m[0] == i;
  }

  /** The two rules agree except on a multi-match, where the source reports
      "not found" instead of "multiple matching". */
  lemma AsWrittenAgreesWithResolve(bs: seq<Backend>, option: Option<string>)
    ensures !Resolve(bs, option).Ambiguous? ==> ResolveAsWritten(bs, option) == Resolve(bs, option)
    ensures Resolve(bs, option).Ambiguous? ==>
              ResolveAsWritten(bs, option) == NotFound(Resolve(bs, option).requested)
  {
    if |bs| > 1 && Truthy(option) {
      MatchCountCases(LoweredNames(bs), ToLower(option.value));
    }
  }

  /** Where several backends match, the source as written says "not found"
      though the intended answer is "ambiguous". */
  lemma MultipleMatchesReportNotFound(bs: seq<Backend>, option: Option<string>)
    requires |bs| > 1 && Truthy(option)
    requires SeveralMatch(LoweredNames(bs), ToLower(option.value))
    ensures ResolveAsWritten(bs, option) == NotFound(ToLower(option.value))
    ensures Resolve(bs, option) == Ambiguous(ToLower(option.value))
  {
  }

  /** With several backends and an option matching none or several of them, no
      backend is selected. */
  lemma NoUniqueMatchFails(bs: seq<Backend>, option: Option<string>)
    requires |bs| > 1 && Truthy(option)
    requires NoMatch(LoweredNames(bs), ToLower(option.value)) || SeveralMatch(LoweredNames(bs), ToLower(option.value))
    ensures Resolve(bs, option).NotFound? || Resolve(bs, option).Ambiguous?
    ensures ResolveAsWritten(bs, option).NotFound?
  {
  }

  /** A concrete input for the line 82 defect: two backends whose display names
      differ only in case, selected by `--user-backend LDAP`. */
  lemma DuplicateNamesExample()
    ensures ResolveAsWritten([NamedBackend("A", "LDAP"), NamedBackend("B", "ldap")], Some("LDAP"))
            == NotFound("ldap")
    ensures Resolve([NamedBackend("A", "LDAP"), NamedBackend("B", "ldap")], Some("LDAP"))
            == Ambiguous("ldap")
  {
    var bs := [NamedBackend("A", "LDAP"), NamedBackend("B", "ldap")];
    assert ToLower("LDAP") == "ldap";
    assert ToLower("ldap") == "ldap";
    assert LoweredNames(bs)[0] == "ldap" && LoweredNames(bs)[1] == "ldap";
    assert SeveralMatch(LoweredNames(bs), "ldap");
  }

  /** Two backends whose names are equal up to case (for instance two instances of
      one class without a display name) can never be selected when several
      backends are registered, whatever the option says. */
  lemma CollidingNamesNeverSelected(bs: seq<Backend>, option: Option<string>, i: int, j: int)
    requires |bs| > 1
    requires 0 <= i < |bs| && 0 <= j < |bs| && i != j
    requires ToLower(BackendName(bs[i])) == ToLower(BackendName(bs[j]))
    ensures Resolve(bs, option).Selected? ==>
              ToLower(BackendName(Resolve(bs, option).backend)) != ToLower(BackendName(bs[i]))
    ensures ResolveAsWritten(bs, option).Selected? ==>
              ToLower(BackendName(ResolveAsWritten(bs, option).backend)) != ToLower(BackendName(bs[i]))
  {
    var r := Resolve(bs, option);
    if r.Selected? {
      var sel := ToLower(option.value);
      var k :| OnlyMatch(LoweredNames(bs), sel, k) && bs[k] == r.backend;
      var names := LoweredNames(bs);
      assert names[i] == ToLower(BackendName(bs[i])) && names[j] == ToLower(BackendName(bs[j]));
      assert names[k] == ToLower(BackendName(r.backend));
    }
    AsWrittenAgreesWithResolve(bs, option);
  }

  /** Backends that do not implement IUserBackend are named by their class, so two
      registered instances of one such class can never be told apart by the option:
      with several backends, neither is ever selected. */
  lemma UnnamedSameClassNeverSelected(bs: seq<Backend>, option: Option<string>, i: int, j: int)
    requires |bs| > 1
    requires 0 <= i < |bs| && 0 <= j < |bs| && i != j
    requires bs[i].UnnamedBackend? && bs[j].UnnamedBackend? && bs[i].className == bs[j].className
    ensures ResolveAsWritten(bs, option) != Selected(bs[i])
    ensures Resolve(bs, option) != Selected(bs[i])
  {
    CollidingNamesNeverSelected(bs, option, i, j);
  }
}
