/** What several components share: a missing value, the codes the API returns, the longest advertising data. */
module Common {
  datatype Option<+T> = None | Some(value: T)

  datatype Code = Success | UnknownError | ParamError | MessageError

  const MAX_ADV_DATA_LEN := 1024
}
