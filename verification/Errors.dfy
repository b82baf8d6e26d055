/** Return values of the services. `widget_errno.h` is not part of this model: what matters is
    that the values differ and that errors are negative. */
module Errors {
  const WIDGET_ERROR_NONE := 0
  const WIDGET_ERROR_NOT_EXIST := -2
  const WIDGET_ERROR_IO_ERROR := -5
  const WIDGET_ERROR_FAULT := -14
  const WIDGET_ERROR_ALREADY_EXIST := -17
  const WIDGET_ERROR_INVALID_PARAMETER := -22
}
