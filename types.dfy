/** Values shared by every stage of the region comparison. */
module Types {

  datatype Option<T> = None | Some(value: T)

  /** One row of a region's household table. The three grouping columns are
      kept as their labels; every other column is carried along untouched. */
  datatype Household = Household(age: string, gender: string, ethnicity: string,
                                 others: map<string, string>)

  /** The (age, gender, ethnicity) tuple that names one demographic cell. */
  datatype GroupKey = GroupKey(age: string, gender: string, ethnicity: string)

  /** The group a household falls into: the projection onto the grouping columns. */
  function KeyOf(h: Household): GroupKey
  {
    GroupKey(h.age, h.gender, h.ethnicity)
  }
}
