/** Failure-carrying values used across the model. */
module Wrappers {

  /** A value that may be absent: Python's `None`, JavaScript's `null`/`undefined`. */
  datatype Option<+T> = None | Some(value: T)

  /** The outcome of an operation that either yields a value or raises an error. */
  datatype Result<+R, +E> = Success(value: R) | Failure(error: E)

  /** The outcome of a check that either passes silently or raises an error. */
  datatype Outcome<+E> = Pass | Fail(error: E)
}

/** The HTTP errors the backend raises (FastAPI's `HTTPException`), with their exact details. */
module Http {

  datatype HttpError = HttpError(status: int, detail: string)

  const USER_NOT_FOUND := HttpError(404, "用户不存在")
  const ROOM_NOT_FOUND := HttpError(404, "会议室不存在")
  const BOOKING_NOT_FOUND := HttpError(404, "预约不存在")
  const ROOM_UNAVAILABLE := HttpError(400, "会议室不可用")
  const INVALID_TIME_RANGE := HttpError(400, "开始时间必须早于结束时间")
  const PAST_TIME := HttpError(400, "不能预约过去的时间")
  const TIME_CONFLICT := HttpError(400, "该时间段已被预约")
  const ALREADY_CANCELLED := HttpError(400, "预约已取消")
  const ROOM_NAME_EXISTS := HttpError(400, "会议室名称已存在")
  const USERNAME_EXISTS := HttpError(400, "用户名已存在")
  const EMAIL_EXISTS := HttpError(400, "邮箱已被注册")
  const INVALID_EMAIL := HttpError(400, "邮箱格式无效")

  /**
   * The response to an exception no handler catches, such as the database
   * rejecting a commit that breaks a unique or a NOT NULL constraint.
   */
  const INTERNAL_ERROR := HttpError(500, "Internal Server Error")
}
