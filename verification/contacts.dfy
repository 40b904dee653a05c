/** The one record the address book stores, and the storage actions the
    command line can ask of the database (addressbook/main.go). */
module Contacts {

  /** Go's `int` on the 64-bit platforms the program is built for. */
  const MinInt: int := -0x8000_0000_0000_0000
  const MaxInt: int := 0x7FFF_FFFF_FFFF_FFFF

  type GoInt = x: int | MinInt <= x <= MaxInt

  /** One row of the contacts table. `dayofbirth` is stored as text. */
  datatype Contact = Contact(id: GoInt, firstname: string, lastname: string, dayofbirth: string)

  /** Exactly one storage statement, chosen by the subcommand. */
  datatype Action =
    | Select
    | Insert(contact: Contact)
    | Update(contact: Contact)
    | Delete(id: GoInt)
    | DeleteAll
}
