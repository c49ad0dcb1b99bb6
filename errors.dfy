/** The error returns of the C code: a NULL pointer from insert, erase,
    at_iter and the constructors, and the sentinel -1 (ERR in src/cvector.h)
    from at, front, back and vect_at. Here they become None; a success carries its value. */
module Errors {

  datatype Option<T> = None | Some(value: T)
}
