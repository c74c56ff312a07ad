/** The key-value cache the services read and invalidate (cache.service.ts,
    cache.constants.ts). The only values the modelled services write are
    attendee responses, so the cache maps keys to those. */
module Cache {
  import opened Common
  import opened AttendeeUtil

  /** CACHE_PREFIX.EVENT and the registration prefix the registration
      service writes by hand. */
  const EventPrefix: string := "events:"
  const RegistrationPrefix: string := "registrations:"

  /** The key under which every listing of events is cached. */
  const AllEventsKey: string := EventPrefix + "all"

  /** The key under which the listing of attendees is cached. */
  const AllAttendeesKey: string := AttendeeCachePrefix + "all"

  class CacheService {
    var entries: map<string, AttendeeResponse>

    constructor ()
      ensures entries == map[]
    {
      entries := map[];
    }

    /** `get`: the value under `key`, if there is one. */
    method Get(key: string) returns (v: Option<AttendeeResponse>)
      ensures v.Some? <==> key in entries
      ensures v.Some? ==> v.value == entries[key]
    {
      if key in entries {
        v := Some(entries[key]);
      } else {
        v := None;
      }
    }

    /** `set`: `key` now holds `value`; every other key is unchanged. */
    method Set(key: string, value: AttendeeResponse)
      modifies this
      ensures entries == old(entries)[key := value]
    {
      entries := entries[key := value];
    }

    /** `del`: `key` no longer holds anything; every other key is unchanged. */
    method Del(key: string)
      modifies this
      ensures entries == old(entries) - {key}
    {
      entries := entries - {key};
    }
  }
}
