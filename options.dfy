/** The optional value that stands for JavaScript's `undefined` / `null` results
    (a failed `match`, a failed `find`, a missing `Map` entry). */
module Options {

  datatype Option<+T> = None | Some(value: T)

}
