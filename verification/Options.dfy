/** SQL NULL and Python None. */
module Options {
  datatype Option<+T> = None | Some(value: T) {
    function GetOr(d: T): T { if Some? then value else d }
    function OrElse(o: Option<T>): Option<T> { if Some? then this else o }
  }
}
