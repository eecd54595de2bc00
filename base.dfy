/** Shared vocabulary of the catalog model: optional values, document identities and the
    abstract date library that the validators and the Author virtuals call into. */
module Base {

  datatype Option<+T> = None | Some(value: T)

  /** A document identity as it appears in a URL (the hexadecimal text of an ObjectId). */
  type Id = string

  /** A JavaScript Date, i.e. a millisecond timestamp. */
  type Date = int

  /** The date functions the application borrows from libraries, left uninterpreted:
      `isISO8601` is the validator of the same name, `parse` is the `toDate` sanitizer
      (None when the text is not a date), and `formatMed` is Luxon's
      `toLocaleString(DateTime.DATE_MED)`. The properties of the model hold for every such
      library, except where a lemma states an assumption about it in its `requires`. */
  datatype DateLib = DateLib(
    isISO8601: string -> bool,
    parse: string -> Option<Date>,
    formatMed: Date -> string)
}
