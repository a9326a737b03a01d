/** The value types shared by the query-argument layer of the fancyindex module. */
module FancyIndexTypes {

  /** The module's error codes: NGX_ERR_OK, NGX_ERR_NOENT, NGX_ERR_INVAL. */
  datatype Status = Ok | NoEnt | Inval

  /** The six sort criteria, in the order of the C enumeration (NAME = 0 … DATE_DESC = 5). */
  datatype SortCriterion = Name | Size | Date | NameDesc | SizeDesc | DateDesc
  {
    /** The letter the `C` argument uses for this criterion's key. */
    function Key(): char
    {
      match this
      case Name | NameDesc => 'N'
      case Size | SizeDesc => 'S'
      case Date | DateDesc => 'M'
    }

    predicate IsDescending()
    {
      NameDesc? || SizeDesc? || DateDesc?
    }

    /** The letter the `O` argument uses for this criterion's order. */
    function Order(): char
    {
      if IsDescending() then 'D' else 'A'
    }
  }

  /** The "no bound" sentinel of a filter field. */
  const Unset: int := -1

  /** The filter record: four bounds read from the query, two reserved bounds and two result counters. */
  datatype FilterCriteria = FilterCriteria(
    dirsCountMax: int,
    filesCountMax: int,
    mTimeLessThanMs: int,
    mTimeGreaterThanMs: int,
    mTimeLessOrEqualMs: int,
    mTimeGreaterOrEqualMs: int,
    dirsCounter: int,
    filesCounter: int)

  datatype Option<T> = None | Some(value: T)
}
