/** The `User` entity: one row of the subscriber table. */
module UserEntity {
  import opened Wrappers

  /** A subscriber row.
      - `id`: the primary key the repository generates when the row is first saved;
      - `telegramId`: the Telegram user id, unique across rows (the table is keyed by it);
      - `isSubscribed`: whether the user receives the periodic weather update;
      - `preferredCity`: `None` while the nullable column is NULL, i.e. until a city is set. */
  datatype User = User(id: nat, telegramId: int, isSubscribed: bool, preferredCity: Option<string>)
}
