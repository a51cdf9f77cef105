/** An optional value: `None` stands for JavaScript's null/NaN and for a
    Python call that raised. */
module Optional {

  datatype Option<+T> = None | Some(value: T)

}
