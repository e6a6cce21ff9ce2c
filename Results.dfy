/** The outcomes of a request: a value, or one of the errors the routes and
    the plotting functions can raise. */
module Results {

  /** What goes wrong, and where in the source it comes from. */
  datatype Error =
    /** `HTTPException(status_code=404, detail=...)` raised by `_check_m`. */
    | NotFound(status: int, detail: string)
    /** `_exit_df` found no members and returned a DataFrame without columns,
        so selecting the `dest` column fails (`df['dest']` in the line chart,
        `names='dest'` in the pie). */
    | MissingDestColumn
    /** A bucket with no exits: `count / n_exits` with `n_exits == 0`. */
    | ZeroDivision
    /** `OverflowError` from date arithmetic: a `timedelta` of more than
        999999999 days, or a date before 0001-01-01 or after 9999-12-31. */
    | DateOverflow

  datatype Result<T> = Ok(value: T) | Err(error: Error)

  datatype Option<T> = None | Some(value: T)
}
