/** The nullable values of the app (`Bitmap?`, an absent activity) as an Option. */
module Options {
  datatype Option<+T> = None | Some(value: T)
}
