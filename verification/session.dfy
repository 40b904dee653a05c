/** What a user sees when a listing follows an insert or an update: the
    action chosen by `run` is taken as stored under the id the database
    assigns, and the stored contact is printed by `selectContacts`. */
module Session {
  import opened Results
  import opened Contacts
  import GoStrings
  import Dates
  import Dispatch
  import Render

  /** An inserted contact, taken as stored verbatim under whatever id the
      database assigns, is listed as it was entered: the stored date carries
      the time suffix, the listing shows the date the user passed, and the
      row reads back as the entered values under that id. */
  lemma InsertThenList(f: Dispatch.Flags, id: GoInt)
    requires f.firstname != "" && f.lastname != "" && f.dayofbirth != ""
    requires !GoStrings.Contains(f.dayofbirth, Dates.TimeSuffix)
    requires |f.firstname| <= Render.TextWidth && |f.lastname| <= Render.TextWidth
    requires |f.dayofbirth| <= Render.TextWidth
    requires Render.NoTrailingSpace(f.firstname) && Render.NoTrailingSpace(f.lastname)
    requires Render.NoTrailingSpace(f.dayofbirth)
    ensures Dispatch.Run(Dispatch.Cmd("insert", f)).Ok?
    ensures var stored := Dispatch.Run(Dispatch.Cmd("insert", f)).value.contact.(id := id);
            Render.ReadRow(Render.Row(stored)) == Some(Contact(id, f.firstname, f.lastname, f.dayofbirth))
  {
    Dispatch.InsertRules(f);
    var stored := Contact(id, f.firstname, f.lastname, Dates.AddTime(f.dayofbirth));
    Dates.StripAddRoundTrip(f.dayofbirth);
    Render.RowReadBack(stored);
  }

  /** An update stores the date exactly as passed, so a date without the
      time suffix is listed exactly as passed too. */
  lemma UpdateThenList(f: Dispatch.Flags)
    requires f.id != 0 && f.firstname != "" && f.lastname != "" && f.dayofbirth != ""
    requires !GoStrings.Contains(f.dayofbirth, Dates.TimeSuffix)
    ensures Dispatch.Run(Dispatch.Cmd("update", f)).Ok?
    ensures var stored := Dispatch.Run(Dispatch.Cmd("update", f)).value.contact;
            Dates.StripTime(stored.dayofbirth) == f.dayofbirth
  {
    Dispatch.UpdateRules(f);
  }
}
