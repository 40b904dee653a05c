/** The command-line front end (`run`, addressbook/main.go:87-211): the
    subcommand token picks one storage action, after the required flags of
    that subcommand have been checked in a fixed order. Opening the database
    and executing the chosen statement are not part of this module; the
    result is the action that would be executed, or the error `run` returns
    before executing anything. */
module Dispatch {
  import opened Results
  import opened Contacts
  import Dates

  /** The parsed values of the chosen subcommand's flag set; a flag the user
      did not pass keeps its default, 0 for `-id` and "" for the others.
      `insert` has no `-id` flag, so its `id` is never read. */
  datatype Flags = Flags(id: GoInt, firstname: string, lastname: string, dayofbirth: string)

  /** What `run` reads: the token after the program name, if there is one,
      and the flag values parsed from the tokens after it. */
  datatype Invocation = Invocation(subcommand: Option<string>, flags: Flags)

  /** The subcommand token of an `os.Args` vector (program name first). */
  function SubcommandOf(osArgs: seq<string>): (r: Option<string>)
    ensures r.None? <==> |osArgs| < 2
    ensures r.Some? ==> r.value == osArgs[1]
  {
    if |osArgs| < 2 then None else Some(osArgs[1])
  }

  const UnknownSubcommand: string :=
    "expected 'select', 'insert', 'update', 'delete' or 'delete-all' subcommand"
  const PassId: string := "pass '-id'"
  // The insert messages end in a space; the update messages do not.
  const InsertPassFirstname: string := "pass '-firstname' "
  const InsertPassLastname: string := "pass '-lastname' "
  const InsertPassDayOfBirth: string := "pass '-dayofbirth' "
  const UpdatePassFirstname: string := "pass '-firstname'"
  const UpdatePassLastname: string := "pass '-lastname'"
  const UpdatePassDayOfBirth: string := "pass '-dayofbirth'"

  predicate IsKnown(sub: string) {
    sub in {"select", "insert", "update", "delete", "delete-all"}
  }

  /** `run` after the database is open. */
  function Run(inv: Invocation): (r: Result<Action, string>)
    ensures r.Err? ==> inv.subcommand.Some? && inv.subcommand.value != "select"
    ensures r.Err? ==> inv.subcommand.value != "delete-all"
  {
    if inv.subcommand.None? then Ok(Select)
    else
      var f := inv.flags;
      match inv.subcommand.value
      case "select" => Ok(Select)
      case "insert" =>
        if f.firstname == "" then Err(InsertPassFirstname)
        else if f.lastname == "" then Err(InsertPassLastname)
        else if f.dayofbirth == "" then Err(InsertPassDayOfBirth)
        else Ok(Insert(Contact(0, f.firstname, f.lastname, Dates.AddTime(f.dayofbirth))))
      case "update" =>
        if f.id == 0 then Err(PassId)
        else if f.firstname == "" then Err(UpdatePassFirstname)
        else if f.lastname == "" then Err(UpdatePassLastname)
        else if f.dayofbirth == "" then Err(UpdatePassDayOfBirth)
        else Ok(Update(Contact(f.id, f.firstname, f.lastname, f.dayofbirth)))
      case "delete" =>
        if f.id <= 0 then Err(PassId)
        else Ok(Delete(f.id))
      case "delete-all" => Ok(DeleteAll)
      case _ => Err(UnknownSubcommand)
  }

  // ---- an independent, table-driven statement of the same rules ----

  /** One required-flag check: whether it passes, and the error if not. */
  datatype Check = Check(passes: bool, message: string)

  /** The checks a subcommand makes, in the order it makes them. */
  function Checks(sub: string, f: Flags): seq<Check> {
    if sub == "insert" then
      [ Check(f.firstname != "", InsertPassFirstname),
        Check(f.lastname != "", InsertPassLastname),
        Check(f.dayofbirth != "", InsertPassDayOfBirth) ]
    else if sub == "update" then
      [ Check(f.id != 0, PassId),
        Check(f.firstname != "", UpdatePassFirstname),
        Check(f.lastname != "", UpdatePassLastname),
        Check(f.dayofbirth != "", UpdatePassDayOfBirth) ]
    else if sub == "delete" then
      [ Check(f.id > 0, PassId) ]
    else []
  }

  /** The position of the first check that fails, if any does. */
  function FirstFailing(checks: seq<Check>): (r: Option<nat>)
    ensures r.None? <==> forall i | 0 <= i < |checks| :: checks[i].passes
    ensures r.Some? ==> r.value < |checks| && !checks[r.value].passes
    ensures r.Some? ==> forall j | 0 <= j < r.value :: checks[j].passes
  {
    if |checks| == 0 then None
    else if !checks[0].passes then Some(0)
    else match FirstFailing(checks[1..])
      case None => None
      case Some(i) => Some(i + 1)
  }

  /** The action a known subcommand asks for once all its checks pass. */
  function Intended(sub: string, f: Flags): Action {
    if sub == "insert" then Insert(Contact(0, f.firstname, f.lastname, f.dayofbirth + Dates.TimeSuffix))
    else if sub == "update" then Update(Contact(f.id, f.firstname, f.lastname, f.dayofbirth))
    else if sub == "delete" then Delete(f.id)
    else if sub == "delete-all" then DeleteAll
    else Select
  }

  /** The subcommand's checks decide, in order: the error of the first
      failing check is returned, and when none fails the subcommand's
      action is. */
  lemma RunFollowsChecks(inv: Invocation)
    requires inv.subcommand.Some? && IsKnown(inv.subcommand.value)
    ensures var checks := Checks(inv.subcommand.value, inv.flags);
            Run(inv) == match FirstFailing(checks)
                        case Some(i) => Err(checks[i].message)
                        case None => Ok(Intended(inv.subcommand.value, inv.flags))
  {
    var sub, f := inv.subcommand.value, inv.flags;
    var checks := Checks(sub, f);
    if sub == "insert" {
      FirstFailingOfThree(checks[0], checks[1], checks[2]);
      assert checks == [checks[0], checks[1], checks[2]];
    } else if sub == "update" {
      FirstFailingOfFour(checks[0], checks[1], checks[2], checks[3]);
      assert checks == [checks[0], checks[1], checks[2], checks[3]];
    } else if sub == "delete" {
      assert FirstFailing(checks) == if checks[0].passes then None else Some(0);
    }
  }

  lemma FirstFailingStep(c: Check, rest: seq<Check>)
    ensures FirstFailing([c] + rest)
         == if !c.passes then Some(0)
            else match FirstFailing(rest)
                 case None => None
                 case Some(i) => Some(i + 1)
  {
    assert ([c] + rest)[1..] == rest;
  }

  lemma FirstFailingOfThree(a: Check, b: Check, c: Check)
    ensures FirstFailing([a, b, c])
         == if !a.passes then Some(0) else if !b.passes then Some(1)
            else if !c.passes then Some(2) else None
  {
    FirstFailingStep(c, []);
    assert [c] + [] == [c];
    FirstFailingStep(b, [c]);
    assert [b] + [c] == [b, c];
    FirstFailingStep(a, [b, c]);
    assert [a] + [b, c] == [a, b, c];
  }

  lemma FirstFailingOfFour(a: Check, b: Check, c: Check, d: Check)
    ensures FirstFailing([a, b, c, d])
         == if !a.passes then Some(0) else if !b.passes then Some(1)
            else if !c.passes then Some(2) else if !d.passes then Some(3) else None
  {
    FirstFailingOfThree(b, c, d);
    FirstFailingStep(a, [b, c, d]);
    assert [a] + [b, c, d] == [a, b, c, d];
  }

  // ---- the rules of each subcommand, one lemma each ----

  /** Without a subcommand token, and for `select`, the table is listed;
      nothing else lists it. */
  lemma SelectIsDefault(inv: Invocation)
    ensures Run(inv) == Ok(Select)
        <==> inv.subcommand.None? || inv.subcommand == Some("select")
  {
  }

  /** `delete-all` always clears the table, whatever flags were parsed,
      and it is the only way to do so. */
  lemma DeleteAllReadsNoFlags(inv: Invocation)
    ensures inv.subcommand == Some("delete-all") ==> Run(inv) == Ok(DeleteAll)
    ensures Run(inv) == Ok(DeleteAll) ==> inv.subcommand == Some("delete-all")
  {
  }

  /** A token that names no subcommand is rejected with the usage error, and
      that error is given for nothing else. */
  lemma UnknownSubcommandRejected(inv: Invocation)
    ensures Run(inv) == Err(UnknownSubcommand)
        <==> inv.subcommand.Some? && !IsKnown(inv.subcommand.value)
  {
  }

  /** The invocation `addressbook <sub> <flags>`. */
  function Cmd(sub: string, f: Flags): Invocation {
    Invocation(Some(sub), f)
  }

  /** Insert checks first name, last name, date of birth in that order; the
      first empty one decides the error. Otherwise it inserts the names as
      given, the date with the time suffix appended, and id 0. The `-id`
      value plays no part. */
  lemma InsertRules(f: Flags)
    ensures Run(Cmd("insert", f)) == Err(InsertPassFirstname) <==> f.firstname == ""
    ensures Run(Cmd("insert", f)) == Err(InsertPassLastname)
      <==> f.firstname != "" && f.lastname == ""
    ensures Run(Cmd("insert", f)) == Err(InsertPassDayOfBirth)
      <==> f.firstname != "" && f.lastname != "" && f.dayofbirth == ""
    ensures Run(Cmd("insert", f)).Ok?
      <==> f.firstname != "" && f.lastname != "" && f.dayofbirth != ""
    ensures Run(Cmd("insert", f)).Ok? ==>
      Run(Cmd("insert", f)) == Ok(Insert(Contact(0, f.firstname, f.lastname, f.dayofbirth + Dates.TimeSuffix)))
    ensures forall id: GoInt :: Run(Cmd("insert", f.(id := id))) == Run(Cmd("insert", f))
  {
  }

  /** Update rejects only id 0, so negative ids pass; then it checks first
      name, last name, date of birth in that order. On success all four
      values are passed on exactly as given: no time suffix is added. */
  lemma UpdateRules(f: Flags)
    ensures Run(Cmd("update", f)) == Err(PassId) <==> f.id == 0
    ensures Run(Cmd("update", f)) == Err(UpdatePassFirstname)
      <==> f.id != 0 && f.firstname == ""
    ensures Run(Cmd("update", f)) == Err(UpdatePassLastname)
      <==> f.id != 0 && f.firstname != "" && f.lastname == ""
    ensures Run(Cmd("update", f)) == Err(UpdatePassDayOfBirth)
      <==> f.id != 0 && f.firstname != "" && f.lastname != "" && f.dayofbirth == ""
    ensures Run(Cmd("update", f)).Ok?
      <==> f.id != 0 && f.firstname != "" && f.lastname != "" && f.dayofbirth != ""
    ensures Run(Cmd("update", f)).Ok? ==>
      Run(Cmd("update", f)) == Ok(Update(Contact(f.id, f.firstname, f.lastname, f.dayofbirth)))
  {
  }

  /** Delete rejects every id that is not positive and otherwise deletes
      exactly that id; the name and date values play no part. */
  lemma DeleteRules(f: Flags)
    ensures Run(Cmd("delete", f)) == Err(PassId) <==> f.id <= 0
    ensures Run(Cmd("delete", f)) == Ok(Delete(f.id)) <==> f.id > 0
    ensures Run(Cmd("delete", f)) == Run(Cmd("delete", Flags(f.id, "", "", "")))
  {
  }

  /** The id check differs between update and delete: every negative id
      is accepted by the one (given the other values) and refused by the
      other. */
  lemma NegativeIdUpdateOnly(f: Flags)
    requires f.id < 0
    ensures f.firstname != "" && f.lastname != "" && f.dayofbirth != "" ==>
      Run(Cmd("update", f)) == Ok(Update(Contact(f.id, f.firstname, f.lastname, f.dayofbirth)))
    ensures Run(Cmd("delete", f)) == Err(PassId)
  {
  }

  /** From the command line: with no token after the program name the
      table is listed, and otherwise the token is the subcommand. So the
      listing is chosen exactly when there is no token or it is `select`. */
  lemma RunOnArgs(osArgs: seq<string>, f: Flags)
    ensures |osArgs| < 2 ==> Run(Invocation(SubcommandOf(osArgs), f)) == Ok(Select)
    ensures |osArgs| >= 2 ==> Run(Invocation(SubcommandOf(osArgs), f)) == Run(Cmd(osArgs[1], f))
    ensures Run(Invocation(SubcommandOf(osArgs), f)) == Ok(Select)
        <==> |osArgs| < 2 || osArgs[1] == "select"
  {
    SelectIsDefault(Invocation(SubcommandOf(osArgs), f));
  }
}
