/** The maybe-type used for the absent result of try_make_non_null (std::optional). */
module Optional {

  datatype Option<+T> = None | Some(value: T)

}
